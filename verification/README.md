# A verified model of the tardi interpreter core

tardi is a Forth-like stack language, and its Rust repository holds several
generations of its interpreter. This project models the sequential core of
each generation in Dafny and proves what that code promises. Each source file
is modelled on its own terms. Where a file calls a collaborator that its own
generation does not have, the model uses a stand-in.

| Dafny module | file | source |
|---|---|---|
| `Base` | base.dfy | shared vocabulary: Option/Result, Rust integer casts, wrapping i64 arithmetic and truncating division, UTF-8 widths, Rust whitespace, `from_str_radix`, substring search, `split_once`, string escaping |
| `TardiScanner` | tardi_scanner.dfy | tardi-scanner/src/lib.rs: the byte-position scanner with quoted strings and width-suffixed integers |
| `WordScanner` | word_scanner.dfy | src/scanner.rs: `TokenType::from_str`, and the scanner with line and column, strings, `\u{…}` escapes, comments, `scan_until` and `scan` |
| `LexemeScanner` | lexeme_scanner.dfy | src/scanner/mod.rs: the scanner with line, column and byte offset, numbers, booleans and keywords |
| `Values` | values.dfy | src/value/data.rs and src/value/frozen.rs: values, frozen values, equality, ordering, integer arithmetic, display and repr |
| `VmOps` | vm_ops.dfy | src/vm/ops.rs: the `OpCode` ↔ usize table |
| `ByteOpCode` | op_code.dfy | src/op_code.rs: the `OpCode` ↔ u8 table |
| `Chunks` | chunk.dfy | src/chunk.rs: constant pool and bytecode |
| `ModuleSystem` | modules.dfy | src/module/mod.rs: modules, imports, exports and the module manager |
| `Environments` | env.dfy | src/env.rs: the environment's constants, instructions, op table and modules |
| `InternalRegistry` | internal.dfy | src/module/internal.rs: built-in registration, and the `std/strings` module's definition |
| `ThreadedVm` | vm_itc.dfy | src/vm/mod.rs: the threaded-code VM |
| `BytecodeVm` | vm_bytecode.dfy | src/vm.rs and src/builtins.rs: the bytecode VM and its stack built-ins |
| `StringWords` | string_words.dfy | src/module/internal/strings.rs: the string words |
| `BytecodeCompiler` | compiler.dfy | src/compiler/mod.rs and src/compiler/program.rs: the compiler and its program |

The form of each model follows its source. Parsers and value operations are
functions with lemmas. Objects that the source updates in place are classes:
the scanners, the VMs, the environment, the module manager, the chunk, the
program, the compiler, the registry and the string words' stack. Their
methods keep the source's loops, and each method is proved equal to a
specification function, such as `NextOf`, `StringUntilOf`, `RunFrom`,
`ExecFrom`, `CompileAll` or the string words' `…Effect` functions. The
properties are proved about those functions.

Rust's fixed-width integers are written out. i64 addition, subtraction and
multiplication wrap as in a release build. `as` casts truncate. Division
truncates toward zero. Strings are sequences of chars. Where Rust counts in
UTF-8 bytes (byte offsets, `len`, slicing), the byte length of each char is
computed explicitly. A byte offset that falls inside a char panics in Rust,
and the model reports it as an error. Rust panics (an index out of bounds,
`i64::MIN / -1`) are likewise modelled as error outcomes.

## Model

| member | source | states |
|---|---|---|
| Base.Truncate | tardi-scanner/src/lib.rs:134-167 | an `as` cast lands in the target type's range and leaves a value already in range unchanged |
| Base.WrapI64 | src/scanner.rs:99 | wrapping i64 arithmetic leaves an in-range result unchanged |
| Base.WrapEqual | src/value/data.rs:356-382 | results equal modulo 2^64 wrap to the same i64 |
| Base.TruncDiv | src/value/data.rs:398-434 | Rust's integer `/` agrees with floor division on non-negative operands |
| Base.Utf8Len | src/module/internal/strings.rs:227-237 | a char takes one to four UTF-8 bytes, and one exactly when it is ASCII |
| Base.ByteLenAppend | src/module/internal/strings.rs:227-237 | the byte length of a concatenation is the sum of the byte lengths |
| Base.ParseI64RoundTrip | src/scanner.rs:159-160 | every i64 parses back from its decimal form |
| Base.Find | src/module/internal/strings.rs:202-224 | the search finds the first occurrence, or none when there is no occurrence at all |
| Base.IndexOfChar | src/scanner.rs:53 | the index of the first occurrence of the char, or none exactly when it is absent |
| Base.SplitOnceSpec | src/scanner.rs:53 | `split_once` splits at the first separator, the left side has none, and it fails exactly when there is no separator |
| Base.SplitOnceAt | src/scanner.rs:53 | splitting `x + c + y` with no `c` in x gives back x and y |
| TardiScanner.Scanner.FromString | tardi-scanner/src/lib.rs:13-17 | a new scanner sits on the first char of the input |
| TardiScanner.Scanner.Last | tardi-scanner/src/lib.rs:65-68 | the `(byte index, char)` last read is present exactly while chars remain |
| TardiScanner.Scanner.ReadChar | tardi-scanner/src/lib.rs:65-68 | the cursor moves one char forward, and stays put at the end of input |
| TardiScanner.Scanner.SkipWhitespace | tardi-scanner/src/lib.rs:19-28 | the cursor ends on the first non-whitespace char at or after it, or at the end (`FirstFrom`, proved unique by `FirstFromUnique`) |
| TardiScanner.Scanner.ReadWord | tardi-scanner/src/lib.rs:30-63 | the loop yields `WordAt`: the maximal run of non-whitespace, its byte start and byte length, classified as a number or a word |
| TardiScanner.Scanner.ReadString | tardi-scanner/src/lib.rs:81-129 | the loop yields `StringAt`: the unescaped body, the raw text including quotes and escapes, its byte start and byte length |
| TardiScanner.Scanner.ReadStringChar | tardi-scanner/src/lib.rs:91-117 | one pass of the string loop keeps the body still to read equal to what it was, and the raw text a slice of the input |
| TardiScanner.Scanner.Next | tardi-scanner/src/lib.rs:197-203 | one iterator step is `NextAt`: skip whitespace, then a string when the char is `"`, a word otherwise |
| TardiScanner.ParseSignedNumber | tardi-scanner/src/lib.rs:178-191 | every parsed number lies in the i128 range |
| TardiScanner.ParseFullNumber | tardi-scanner/src/lib.rs:131-176 | a parsed word is always a number, never a Boolean, word or string; a word without `:` parses exactly as an `isize` with no suffix |
| TardiScanner.ParseTyped | tardi-scanner/src/lib.rs:133-166 | a width-suffixed number parses exactly when its digits parse, always to a number, and `i128` keeps the parsed value unchanged |
| TardiScanner.NextAt | tardi-scanner/src/lib.rs:197-203 | the scanner never moves backwards or past the end; it yields nothing exactly when only whitespace is left, and a yielded value consumes input and has non-empty text that starts with a non-whitespace char |
| TardiScanner.NextYieldsIffNotBlank | tardi-scanner/src/lib.rs:197-203 | a step yields a value exactly when non-whitespace input remains, and a yielding step moves the cursor forward |
| TardiScanner.BlankInputYieldsNothing | tardi-scanner/src/lib.rs:197-203 | the whole scan is empty exactly when the input is all whitespace |
| TardiScanner.WordShape | tardi-scanner/src/lib.rs:30-63 | a word's text is non-empty, whitespace-free and followed by whitespace or the end; index and length are its byte offset and byte length |
| TardiScanner.BodyOfEscaped | tardi-scanner/src/lib.rs:91-117 | an escaped body followed by a quote unescapes to its data and ends just past the quote |
| TardiScanner.QuotedParts | tardi-scanner/src/lib.rs:81-129 | a quoted escaped string's body reads back as its data and its text is the quoted form |
| TardiScanner.StringRoundTrip | tardi-scanner/src/lib.rs:81-129 | round trip: scanning `"` + escape(d) + `"` gives `String(d)` with the quoted text, byte index and byte length |
| TardiScanner.RadixPrefixes | tardi-scanner/src/lib.rs:179-184 | each of `0x`/`0X`, `0o`/`0O` and `0b`/`0B` parses the rest in radix 16, 8 and 2 |
| TardiScanner.DecimalRoundTrip | tardi-scanner/src/lib.rs:185-190 | the decimal rendering of any n up to i128::MAX parses back to n |
| TardiScanner.DecimalParses | tardi-scanner/src/lib.rs:185-190 | a non-empty run of decimal digits in range parses to its value |
| TardiScanner.NotRadixPrefixed | tardi-scanner/src/lib.rs:179-184 | a buffer whose second char is a digit or separator takes none of the radix branches |
| TardiScanner.UnsignedDigits | tardi-scanner/src/lib.rs:186-188 | the plain decimal parse reads digit strings as their value |
| TardiScanner.SeparatorsIgnored | tardi-scanner/src/lib.rs:186-189 | a decimal whose first char is a digit and whose other chars are digits, `_` or `,` reads as its digits with every separator removed |
| TardiScanner.RemoveSplits | tardi-scanner/src/lib.rs:189 | removing `_` then `,` from digits around one separator leaves the digits joined |
| TardiScanner.SuffixSelectsWidth | tardi-scanner/src/lib.rs:131-176 | a known `:type` suffix casts the parsed number to that type; an unknown suffix makes the parse fail |
| TardiScanner.ColonNeverParses | tardi-scanner/src/lib.rs:169-171 | a buffer containing `:` never parses as a signed number, so the unknown-suffix fallback always fails |
| TardiScanner.WordFallback | tardi-scanner/src/lib.rs:50-62 | a word becomes `Word(text)` exactly when it does not start with a digit, `+` or `-`, or does not parse as a number |
| WordScanner.ParseMultiplier | src/scanner.rs:42-50 | one leading `-` gives -1 and is stripped, one leading `+` gives 1 and is stripped, otherwise the word is kept with 1 |
| WordScanner.ParseRational | src/scanner.rs:52-85 | a parsed rational is always a `Rational` token |
| WordScanner.ParseWithRadix | src/scanner.rs:87-103 | a radix parse yields only `Integer` tokens |
| WordScanner.FromStr | src/scanner.rs:111-171 | a keyword always wins; an integer fits in i64; a float keeps the word's text; a string starts with `"`; a plain word is the word itself; a word is never EOF or a comment |
| WordScanner.TrimStartMatches | src/scanner.rs:95-97 | trimming never lengthens the text and leaves no copy of the prefix at its start |
| WordScanner.TrimRemovesCopies | src/scanner.rs:95-97 | what the trim removes is a whole number of copies of the prefix: the input is `k` copies followed by the result |
| WordScanner.TrimIsSuffix | src/scanner.rs:95-97 | the trimmed text is a suffix of the input |
| WordScanner.NextCharOf | src/scanner.rs:301-315 | the index always advances by one; a char is returned exactly while input remains; line and column stay consistent with the text read |
| WordScanner.NextCharsOf | src/scanner.rs:416-418 | n reads advance the index by n and keep line and column consistent |
| WordScanner.SkipWhitespaceOf | src/scanner.rs:352-358 | skipping always reads at least one char and keeps line and column consistent |
| WordScanner.WordScanOf | src/scanner.rs:389-393 | the word loop reads at least one char, stops at most one past the end, and keeps line and column consistent |
| WordScanner.CommentEndOf | src/scanner.rs:378-386 | the comment loop reads at least one char and keeps line and column consistent |
| WordScanner.DocBodyOf | src/scanner.rs:365-370 | the doc-comment loop reads at least one char and keeps line and column consistent |
| WordScanner.StringUntilOf | src/scanner.rs:411-444 | reading a string always moves the cursor forward |
| WordScanner.EscapedCharOf | src/scanner.rs:422-437 | reading an escape always moves the cursor forward |
| WordScanner.UnicodeOf | src/scanner.rs:446-465 | reading a `\u{…}` escape always moves the cursor forward |
| WordScanner.StringUntilConsistent | src/scanner.rs:411-444 | reading a string keeps line and column equal to the newlines and the chars since the last newline |
| WordScanner.EscapedCharConsistent | src/scanner.rs:422-437 | reading an escape keeps line and column consistent |
| WordScanner.UnicodeConsistent | src/scanner.rs:446-465 | reading a `\u{…}` escape keeps line and column consistent |
| WordScanner.WordOf | src/scanner.rs:388-402 | a word step moves the cursor forward and keeps line and column consistent |
| WordScanner.QuotedOf | src/scanner.rs:325-333 | a string or long-string step moves the cursor forward and keeps line and column consistent |
| WordScanner.DocCommentOf | src/scanner.rs:360-376 | a doc-comment step moves the cursor forward and keeps line and column consistent |
| WordScanner.NextOf | src/scanner.rs:319-350 | `next` moves the cursor, never returns before the end once past it, keeps line and column consistent, and each yielded token consumes input or is the one EOF step |
| WordScanner.TokenAfterOf | src/scanner.rs:321-350 | the dispatch after whitespace keeps line and column consistent and yields only by consuming input or passing the end once |
| WordScanner.UpToClose | src/scanner.rs:474-475 | the tokens strictly before the first `close` token, or none when no token is `close` |
| WordScanner.Scanner.FromString | src/scanner.rs:259-272 | a new scanner is at index 0, line 0, column 0, with no saved start and not past the end |
| WordScanner.Scanner.NextChar | src/scanner.rs:301-315 | the method's effect is `NextCharOf` on the cursor |
| WordScanner.Scanner.SkipWhitespace | src/scanner.rs:352-358 | the loop's effect is `SkipWhitespaceOf` |
| WordScanner.Scanner.SaveStart | src/scanner.rs:278-280 | the saved start is the index, line and column of the char just read |
| WordScanner.Scanner.TokenFromStart | src/scanner.rs:282-291 | the token spans from the saved start to the char before the cursor, and the saved start is cleared |
| WordScanner.Scanner.NextChars | src/scanner.rs:416-418 | the loop's effect is `NextCharsOf` |
| WordScanner.Scanner.StringUntil | src/scanner.rs:411-444 | the loop's result and cursor are `StringUntilOf` |
| WordScanner.Scanner.EscapedChar | src/scanner.rs:422-437 | the escape's result and cursor are `EscapedCharOf` |
| WordScanner.Scanner.Unicode | src/scanner.rs:446-465 | the result and cursor are `UnicodeOf` |
| WordScanner.Scanner.Comment | src/scanner.rs:378-386 | the loop's effect is `CommentEndOf` |
| WordScanner.Scanner.DocBody | src/scanner.rs:363-370 | the loop's text and cursor are `DocBodyOf` |
| WordScanner.Scanner.WordText | src/scanner.rs:389-397 | the loop's text and cursor are `WordScanOf` from the saved start |
| WordScanner.Scanner.Word | src/scanner.rs:388-402 | the token and cursor are `WordOf` |
| WordScanner.Scanner.Next | src/scanner.rs:319-350 | the token and cursor are `NextOf` |
| WordScanner.Scanner.TokenAfter | src/scanner.rs:321-350 | the token and cursor are `TokenAfterOf` |
| WordScanner.Scanner.Quoted | src/scanner.rs:325-333 | the token and cursor are `QuotedOf` |
| WordScanner.Scanner.DocCommentToken | src/scanner.rs:360-376 | the token and cursor are `DocCommentOf` |
| WordScanner.Scanner.StringToken | src/scanner.rs:404-409 | an error passes through; otherwise a `String` token from the saved start |
| WordScanner.Scanner.ScanUntil | src/scanner.rs:474-494 | the loop's result and cursor are `ScanUntilFixed`, the documented behaviour (see Findings) |
| WordScanner.Scan | src/scanner.rs:497-506 | the loop's result is `TokensOf`, every token of the input up to the first error |
| WordScanner.KeywordsFirst | src/scanner.rs:113-137 | the fixed punctuation and keyword words win over every other reading |
| WordScanner.DecimalWord | src/scanner.rs:140-163 | a signed run of decimal digits is an `Integer` when it fits in an i64 and a `Float` otherwise |
| WordScanner.SignedDecimal | src/scanner.rs:159-160 | the decimal rendering of n up to i64::MAX, after an optional sign, reads as ±n |
| WordScanner.BeyondI64 | src/scanner.rs:159-162 | a decimal beyond i64::MAX reads as a float |
| WordScanner.RadixWord | src/scanner.rs:142-151 | `0x`, `0o`, `0b` literals in either case, after an optional sign, read as their signed i64 value |
| WordScanner.RadixHit | src/scanner.rs:94-100 | a prefix followed by digits of the radix parses to their value times the sign |
| WordScanner.RadixMiss | src/scanner.rs:94 | a word whose second char is neither prefix letter misses the radix branch |
| WordScanner.RadixTrim | src/scanner.rs:95-97 | trimming both prefixes from prefix + digits leaves the digits |
| WordScanner.RationalOfParts | src/scanner.rs:52-85 | `numer/den` reads as numer times the signs over the absolute denominator, wrapping like i64 |
| WordScanner.FractionNumber | src/scanner.rs:52-85 | a digit numerator over a parsed denominator gives the numerator negated when exactly one of the word and the denominator is negative |
| WordScanner.FractionBranch | src/scanner.rs:152-155 | a signed `numer/den` word takes the rational branch of `from_str` |
| WordScanner.SimpleFraction | src/scanner.rs:52-85 | `±numer/den` reads as `Rational(±numer, abs(den))` with the sign rule of both signs |
| WordScanner.WordsAreNotMarkers | src/scanner.rs:111-171 | a word never reads as EOF, a comment or a doc comment |
| WordScanner.TokenFacts | src/scanner.rs:282-291 | a token made from the saved start is placed at its first char with the line and column there |
| WordScanner.WordFacts | src/scanner.rs:388-402 | a word token is placed, starts at its first char and ends before the cursor |
| WordScanner.QuotedFacts | src/scanner.rs:325-333 | a string token is placed, starts at its quote and ends before the cursor |
| WordScanner.DocFacts | src/scanner.rs:360-376 | a doc-comment token is placed, starts at its `#` and ends before the cursor |
| WordScanner.EofFacts | src/scanner.rs:344-349 | at the end, one EOF token of length 0 at the end of input, then nothing |
| WordScanner.NextFacts | src/scanner.rs:319-350 | `next` yields nothing exactly once past the end, else a placed token at or after the cursor that is EOF exactly when it passes the end |
| WordScanner.TokenAfterFacts | src/scanner.rs:321-350 | the same facts from the char after the whitespace, comments skipped included |
| WordScanner.StreamCons | src/scanner.rs:497-506 | a placed first token followed by a well-formed rest is a well-formed stream |
| WordScanner.TokensFacts | src/scanner.rs:497-506 | a scan ends with exactly one EOF token, its tokens are placed and do not overlap |
| WordScanner.ScanFacts | src/scanner.rs:497-506 | the whole scan ends with exactly one EOF token, its tokens are placed, in order and do not overlap |
| WordScanner.EscapedBody | src/scanner.rs:411-444 | an escaped body followed by a quote reads back as its data, ending just past the quote |
| WordScanner.BackslashAtEnd | src/scanner.rs:422-437 | a backslash at the end of input is `EndOfFile(String(""))` |
| WordScanner.QuotedRoundTrip | src/scanner.rs:467-472 | round trip: a quoted escaped string scans to a `String` token of its data spanning the quote and the body |
| WordScanner.UnicodeShape | src/scanner.rs:446-465 | a `\u` escape succeeds only after `{` and only with a Unicode scalar value; without `{` it is `InvalidUnicodeChar` |
| WordScanner.ScanUntilTokens | src/scanner.rs:474-494 | the documented `scan_until` gives the tokens before the first `close`, or `EndOfFile(close)` when none is `close` |
| WordScanner.ScanUntilAsWritten | src/scanner.rs:489-493 | on input `]` with close `]`, the code as written reports `EndOfFile` where the documented behaviour gives no tokens |
| LexemeScanner.PositionOfPrefix | src/scanner/mod.rs:39-47 | the line, column and offset after reading a prefix are 1 + its newline count, 1 + the chars after its last newline, and its UTF-8 byte length |
| LexemeScanner.OffsetSpan | src/scanner/mod.rs:39-47 | the offset advance between two positions is the byte length of the chars between them |
| LexemeScanner.SkipIdempotent | src/scanner/mod.rs:62-70 | skipping whitespace a second time does not move |
| LexemeScanner.NumberLoopIsNumberAt | src/scanner/mod.rs:73-126 | the digit/dot loop equals the loop-free reading: digits, optional dot and fraction digits, errors for a bare dot, a second dot or an i64 overflow |
| LexemeScanner.NumberLoop | src/scanner/mod.rs:73-126 | the number scan never moves backwards or past the end; it yields an Integer or a Float, a Float once a `.` has been seen, and otherwise only an InvalidNumber error |
| LexemeScanner.NextAt | src/scanner/mod.rs:184-194 | the scanner never moves backwards or past the end; it yields nothing only at the end of the input, and a yielded token or error consumes input |
| LexemeScanner.TokenAt | src/scanner/mod.rs:189-217 | after whitespace, the scan yields nothing exactly at the end of the input, and otherwise consumes at least one char |
| LexemeScanner.ParseDigits | src/scanner/mod.rs:121-124 | a digit string parses to its value exactly when that value fits i64 |
| LexemeScanner.DigitLiteral | src/scanner/mod.rs:86-125 | a token starting with a digit is Integer(value), Float(text) or InvalidNumber with the text read, by the dot and overflow cases |
| LexemeScanner.HashLiteral | src/scanner/mod.rs:129-137 | `#t` is Boolean(true), `#f` Boolean(false), anything else InvalidLiteral("#"), and the char after `#` is consumed |
| LexemeScanner.KeywordSpelling | src/scanner/mod.rs:153-177 | a keyword's spelling scans back as that keyword; a word is Word(itself) exactly when it spells no keyword |
| LexemeScanner.WordLiteral | src/scanner/mod.rs:140-178 | any other first char starts a word that runs to the next ASCII whitespace and is read by the keyword table |
| LexemeScanner.NextNoneIffBlank | src/scanner/mod.rs:184-194 | next yields nothing exactly when only whitespace is left, and then stays at the end |
| LexemeScanner.TokenPlaced | src/scanner/mod.rs:184-218 | a token starts at the first non-whitespace char, its line/column/offset are those of the text before it, its lexeme is the text read and its length the lexeme's byte length |
| LexemeScanner.ScanExample | src/scanner/mod.rs:296-318 | from its two halves, `42 #x` scans as Integer(42) at line 1, column 1, offset 0, length 2, lexeme "42", then InvalidLiteral("#") |
| LexemeScanner.ScanExampleNumber | src/scanner/mod.rs:296-318 | `42 ` scans as Integer(42) at line 1, column 1, offset 0, length 2, lexeme "42", and the cursor stops after the digits |
| LexemeScanner.ScanExampleHash | src/scanner/mod.rs:129-137 | after `42`, `#x` scans as InvalidLiteral("#") and consumes the rest of the input |
| LexemeScanner.Scanner.New | src/scanner/mod.rs:28-36 | a new scanner is at line 1, column 1, offset 0, and its position invariant holds |
| LexemeScanner.Scanner.Advance | src/scanner/mod.rs:39-47 | the offset grows by the char's UTF-8 length; a newline moves to the next line's column 1, any other char to the next column |
| LexemeScanner.Scanner.NextChar | src/scanner/mod.rs:55-59 | returns the next char, if any, and consumes it, keeping line/column/offset equal to PositionAt |
| LexemeScanner.Scanner.SkipWhitespace | src/scanner/mod.rs:62-70 | stops at the first char that is not Unicode whitespace |
| LexemeScanner.Scanner.ScanNumber | src/scanner/mod.rs:73-126 | computes NumberLoop and leaves the scanner where it stops |
| LexemeScanner.Scanner.ScanBoolean | src/scanner/mod.rs:129-137 | computes BooleanAt |
| LexemeScanner.Scanner.ScanWord | src/scanner/mod.rs:140-178 | computes WordAt: the keyword or word of the text up to ASCII whitespace |
| LexemeScanner.Scanner.ScanBody | src/scanner/mod.rs:196-200 | dispatches on the first char: digit, `#`, anything else |
| LexemeScanner.Scanner.Next | src/scanner/mod.rs:184-218 | computes NextAt, so TokenPlaced and the literal lemmas hold of its tokens |
| LexemeScanner.Scanner.ReadToken | src/scanner/mod.rs:189-217 | records the start, reads the token and wraps it with start position, byte length and lexeme |
| LexemeScanner.OffsetIsByteLen | src/scanner/mod.rs:39-47 | the offset after reading a prefix is its UTF-8 byte length |
| LexemeScanner.OffsetGrows | src/scanner/mod.rs:39-47 | offsets never decrease as the scanner reads on |
| Values.FreezeDomain | src/value/frozen.rs:56-80 | freezing succeeds exactly for integers, booleans, chars, strings, addresses, words, symbols and return addresses; any other value is reported back as unfreezable |
| Values.Freeze | src/value/frozen.rs:56-80 | freezing succeeds exactly on the freezable kinds and otherwise fails with UnfreezableValue carrying the value |
| Values.Thaw | src/value/frozen.rs:82-95 | a thawed value is freezable and freezes back to the same frozen value |
| Values.GetWord | src/value/data.rs:50-58 | a value has a word exactly when it is a Word or a Symbol |
| Values.ValueShow | src/value/data.rs:159-211 | integers, Booleans, chars, strings, addresses, words, symbols, macros, returns and end-of-input have a rendering; floats, hash maps, functions, literals, writers and readers are not rendered by this model |
| Values.ValueRepr | src/value/data.rs:42-48 | a value has a repr exactly when it has a rendering, and a string's repr is the string quoted with its escapes |
| Values.Equals | src/value/data.rs:222-265 | equal values are of the same kind, and a return marker, writer or reader equals nothing |
| Values.PartialCmp | src/value/data.rs:268-313 | only values of the same kind are ordered, and two integers are Less, Equal or Greater exactly as their numbers compare |
| Values.Cmp | src/value/data.rs:215-219 | the total order is the partial order where that is defined, and values of different kinds are Less |
| Values.Add | src/value/data.rs:356-368 | addition succeeds exactly on two numbers, else it fails with TypeMismatch("addition"); the result is an integer exactly when both operands are, a float otherwise; two integers whose sum fits in i64 give that sum |
| Values.Sub | src/value/data.rs:370-382 | subtraction succeeds exactly on two numbers, else it fails with TypeMismatch("subtraction"); the result is an integer exactly when both operands are, a float otherwise; two integers whose difference fits in i64 give that difference |
| Values.Mul | src/value/data.rs:384-396 | multiplication succeeds exactly on two numbers, else it fails with TypeMismatch("multiplication"); the result is an integer exactly when both operands are, a float otherwise; two integers whose product fits in i64 give that product |
| Values.Div | src/value/data.rs:398-434 | division fails with TypeMismatch("division") exactly when an operand is not a number; a result is an integer exactly when both operands are; a number divided by the integer 0 fails with DivisionByZero |
| Values.FreezeThaw | src/value/frozen.rs:82-95 | thawing then freezing gives back the frozen value, and a value that freezes is what its frozen form thaws to |
| Values.ShowCharInjective | src/value/frozen.rs:36-43 | the quoted, escaped rendering of chars tells different chars apart |
| Values.QuoteStringEscapes | src/value/frozen.rs:21-27 | the repr of a string is the string in double quotes with each backslash and each double quote preceded by a backslash |
| Values.ThawRendersAlike | src/value/data.rs:159-211 | a frozen value and its thawed value have the same display and repr |
| Values.ListRendering | src/value/data.rs:175-181 | a list displays as `{`, a space and the repr of each item, and ` }`, so strings inside lists are quoted |
| Values.GetWordKinds | src/value/data.rs:50-58 | only words and symbols have a word |
| Values.GetWordEquality | src/value/data.rs:50-58 | between a word and a word or symbol, equality is agreement of their words |
| Values.WordSymbolEquality | src/value/data.rs:245-257 | a word equals a symbol with the same word, whatever its module; two symbols must agree on module and word |
| Values.NotSelfEqual | src/value/data.rs:222-265 | return addresses, writers and readers are not equal even to themselves |
| Values.EqualSymmetric | src/value/data.rs:222-265 | value equality is symmetric, given that float equality is |
| Values.CompareItems | src/value/data.rs:277-294 | the loop over two equal-length lists returns the first comparison that is not Equal, or Equal |
| Values.ListOrder | src/value/data.rs:277-294 | lists order by length first; equal-length lists order as their first pair of items that does not compare Equal, and are Equal when every pair is |
| Values.MismatchedKinds | src/value/data.rs:215-313 | values of different kinds (integers and floats one kind, words and symbols another) are unequal and incomparable, and `cmp` calls the first Less |
| Values.CmpEqualMeansEqual | src/value/data.rs:222-313 | two values that compare Equal are equal, given that float comparison agrees with float equality |
| Values.NonNumbersMismatch | src/value/data.rs:356-434 | addition, subtraction, multiplication and division of anything but two numbers is a type mismatch |
| Values.AddSubInverse | src/value/data.rs:356-382 | integer addition, subtraction and multiplication give integers, and subtracting what was added gives back the start even across 64-bit wrap-around |
| Values.DivTruncates | src/value/data.rs:398-434 | integer division fails with DivisionByZero exactly on a zero divisor and with DivisionOverflow exactly on `i64::MIN / -1` (where `/` panics); otherwise it truncates toward zero: the remainder is smaller than the divisor and has the dividend's sign |
| Values.EscapeByReplacing | src/value/data.rs:44 | doubling backslashes and then escaping double quotes is the per-char escape |
| VmOps.Encode | src/vm/ops.rs:50-54 | every opcode's number is below 38 |
| VmOps.Decode | src/vm/ops.rs:56-100 | a usize decodes exactly when it is below the number of opcodes, else it fails with InvalidOpCode carrying the value |
| VmOps.DecodeEncode | src/vm/ops.rs:50-98 | decoding an opcode's number gives back that opcode |
| VmOps.EncodeDecode | src/vm/ops.rs:56-100 | each of 0 to 37 decodes to the opcode numbered by it (declaration order); any larger number gives InvalidOpCode carrying the number |
| VmOps.DecodeInjective | src/vm/ops.rs:60-98 | distinct numbers never decode to the same opcode |
| ByteOpCode.Encode | src/op_code.rs:5-19 | every opcode's byte is below 11 |
| ByteOpCode.Decode | src/op_code.rs:21-38 | a byte decodes exactly when it is below the number of opcodes, to the opcode that encodes back to it, else it fails with InvalidOpCode carrying the byte |
| ByteOpCode.DecodeEncode | src/op_code.rs:7-36 | decoding an opcode's byte gives back that opcode |
| ByteOpCode.EncodeDecode | src/op_code.rs:24-38 | each of 0 to 10 decodes to the opcode with that byte; any other byte gives InvalidOpCode carrying the byte |
| ByteOpCode.DecodeInjective | src/op_code.rs:26-36 | distinct bytes never decode to the same opcode |
| ByteOpCode.DecodeExamples | src/op_code.rs:46-63 | 0, 4 and 10 decode to GetConstant, Div and Return, and 177 to InvalidOpCode(177) |
| Chunks.Chunk.New | src/chunk.rs:14-20 | a new chunk has no constants and no code |
| Chunks.Chunk.AddConstant | src/chunk.rs:22-25 | appends the value to the constant pool and returns its index, the old pool length |
| Chunks.Chunk.PushOpCode | src/chunk.rs:27-30 | appends the opcode's byte and the parameter, leaving earlier code alone; the appended byte decodes back to the opcode |
| Chunks.AddConstantExample | src/chunk.rs:39-47 | the first constant of a new chunk gets index 0 and is the whole pool |
| Chunks.PushOpCodeExample | src/chunk.rs:49-59 | pushing GetConstant with the first constant's index gives the code [0, 0] |
| ModuleSystem.NewModule | src/module/mod.rs:80-89 | a new module has the name, no path, and defines, imports and exports nothing |
| ModuleSystem.WithPath | src/module/mod.rs:91-101 | a module with a path has that path and name and is otherwise empty |
| ModuleSystem.WithImports | src/module/mod.rs:103-113 | the new module has the given name, no path, no definitions and no export list, and imports exactly the other module's definitions |
| ModuleSystem.Get | src/module/mod.rs:119-124 | a name resolves exactly when it is defined or imported; its own definition wins over an import |
| ModuleSystem.Exports | src/module/mod.rs:126-143 | without an export list, the exports are all definitions; with one, only listed names are exported, and each exported name resolves in the module to its exported index |
| ModuleSystem.IsInternal | src/module/mod.rs:321-324 | every internal module's name starts with `std/` and has more after it |
| ModuleSystem.GetResolves | src/module/mod.rs:119-124 | a name resolves exactly when it is defined or imported, and the defined index wins over the imported one |
| ModuleSystem.WithImportsResolves | src/module/mod.rs:103-113 | a module built with imports defines and exports nothing, imports the other module's definitions, and resolves each name as the other module defines it |
| ModuleSystem.ExportsListed | src/module/mod.rs:133-141 | with an export list, a name is exported exactly when it is listed and resolves, at the index it resolves to |
| ModuleSystem.ExportsDefault | src/module/mod.rs:129-132 | without an export list, the exports are the definitions, never the imports |
| ModuleSystem.GetExports | src/module/mod.rs:126-143 | the loops over the definitions or over the export list build exactly Exports |
| ModuleSystem.InternalNames | src/module/mod.rs:24-37 | is_internal holds for exactly eight names: std/fs, std/kernel, std/sandbox, std/_internals, std/io, std/scanning, std/strings and std/vectors |
| ModuleSystem.Find | src/module/mod.rs:249-259 | a name starting `./` or `../` is resolved from the context module and is ModuleNotFound without one; any other name goes to the search paths |
| ModuleSystem.ModuleManager.New | src/module/mod.rs:156-166 | a new manager has the search paths and no modules |
| ModuleSystem.ModuleManager.GetOpIndex | src/module/mod.rs:214-218 | a word has an index exactly when its module is loaded and resolves it |
| ModuleSystem.ModuleManager.AddModule | src/module/mod.rs:228-235 | afterwards the module is contained and found under its name; every other name finds what it found before |
| Environments.NewModule | src/env.rs:52-60 | a new module has the name, no path and no words |
| Environments.WithPath | src/env.rs:62-71 | a module with a path has that path and name and no words |
| Environments.WithImports | src/env.rs:73-82 | the new module has the given name, no path and no definitions, and imports exactly the other module's definitions |
| Environments.Get | src/env.rs:88-93 | a name resolves exactly when it is defined or imported; its own definition wins over an import |
| Environments.WithImportsResolves | src/env.rs:73-93 | a module built with imports has the name, defines nothing, and resolves each name to the other module's definition |
| Environments.InsertAll | src/env.rs:95-99 | the insertion loop yields the old map overridden by every entry of the copied map |
| Environments.ImportedAfterUse | src/env.rs:95-99 | after importing, each copied definition is imported at its index and every other import is unchanged |
| Environments.UseModuleOf | src/env.rs:95-99 | a module's use_module changes only its imports, to the old imports overridden by the other module's definitions |
| Environments.Environment.New | src/env.rs:139-146 | a new environment has no constants, instructions, ops or modules |
| Environments.Environment.ExtendInstructions | src/env.rs:181-187 | returns the old length; the old instructions stay as the prefix and the new ones follow |
| Environments.Environment.AddInstruction | src/env.rs:189-193 | appends one instruction |
| Environments.Environment.AddConstant | src/env.rs:195-198 | appends the value and returns its index, where get_constant then finds it |
| Environments.Environment.GetConstant | src/env.rs:200-202 | finds the constant exactly at indices inside the pool |
| Environments.Environment.SetOpTable | src/env.rs:204-206 | replaces the op table and nothing else |
| Environments.Environment.AddToOpTable | src/env.rs:208-235 | the lambda always goes at the old end of the op table; a named lambda is defined in its module at that index; a missing module gives ModuleNotFound after the table has grown |
| Environments.Environment.AddMacro | src/env.rs:353-362 | the macro always goes at the old end of the op table; a named macro is defined in its module at that index (resolvable there), and no other module or definition changes; a missing module gives ModuleNotFound with the modules unchanged after the table has grown; constants and instructions stay the same |
| Environments.Environment.SetImported | src/env.rs:237-241 | replaces the named module's imports, and does nothing when the module is missing |
| Environments.Environment.GetOpIndex | src/env.rs:265-271 | a word has an index exactly when its module is loaded and resolves it |
| Environments.Environment.GetInstruction | src/env.rs:273-278 | the instruction at ip, or InvalidInstructionPointer(ip) past the end |
| Environments.Environment.GetOp | src/env.rs:280-285 | the lambda at the index, or InvalidOpCode carrying the ip and the index past the end |
| Environments.Environment.AddModule | src/env.rs:308-311 | stores the module under its name |
| Environments.Environment.CreateModule | src/env.rs:174-179 | a new module importing the kernel's definitions; indexing a missing kernel panics |
| Environments.Environment.GetOrCreateModule | src/env.rs:313-330 | an existing module is returned unchanged; otherwise a module importing the kernel's definitions is added and returned |
| Environments.Environment.UseModule | src/env.rs:332-347 | the destination's imports become its old imports overridden by the source's definitions; a missing source or destination gives ModuleNotFound and changes nothing |
| InternalRegistry.NewBuiltin | src/module/internal.rs:63 | a built-in lambda is named, not immediate, defined, and calls the given built-in |
| InternalRegistry.NewBuiltinMacro | src/module/internal.rs:75 | a built-in macro is the same lambda but immediate |
| InternalRegistry.SelectBuilderInternal | src/module/internal.rs:34-44 | a module can be defined exactly for the eight internal module names, and any other name gives ModuleNotFound(name) |
| InternalRegistry.SelectBuilder | src/module/internal.rs:29-44 | a builder is found exactly for the internal module names; any other name fails with ModuleNotFound carrying the name |
| InternalRegistry.Registry.PushOp | src/module/internal.rs:57-67 | appends exactly one built-in lambda and names it at the op table's previous length, so successive pushes get consecutive indices |
| InternalRegistry.Registry.PushMacro | src/module/internal.rs:69-79 | as push_op, with an immediate lambda |
| InternalRegistry.Registry.PushWords | src/module/internal/strings.rs:22-44 | pushing words in order appends one built-in per word after the old table, names every word, and names each new name at an op-table entry carrying that name |
| InternalRegistry.Registry.DefineStrings | src/module/internal/strings.rs:14-53 | the strings module is std/strings, imports nothing, and defines every string word at the op-table entry built for it |
| InternalRegistry.Registry.New | src/module/internal.rs:29-33 | a builder starts from the shared op table and an empty name index |
| ThreadedVm.FinishedAtEnd | src/vm/mod.rs:41-53 | a run that finishes stops with the instruction pointer at or past the end of the instructions |
| ThreadedVm.RunFrom | src/vm/mod.rs:41-53 | a run at or past the end finishes at once without change; with no fuel left before the end it stops where it is; a finished run has left the instructions behind |
| ThreadedVm.InvalidIndexFails | src/vm/mod.rs:43-50 | an instruction indexing past the op table stops the run with InvalidOpCode(index), the instruction pointer already moved past it |
| ThreadedVm.DispatchAdvances | src/vm/mod.rs:43-48 | the instruction pointer moves past an instruction before its operation runs, and the run continues from what the operation leaves |
| ThreadedVm.VM.New | src/vm/mod.rs:31-38 | a new VM has no ops, no instructions, ip 0 and an empty stack |
| ThreadedVm.VM.Run | src/vm/mod.rs:41-53 | the loop computes RunFrom: the final ip, stack and ending, leaving the op table and instructions as they were |
| ThreadedVm.VM.Push | src/vm/mod.rs:56-58 | puts the value on top of the stack |
| ThreadedVm.VM.Pop | src/vm/mod.rs:61-63 | removes and returns the top of the stack, or gives StackUnderflow and leaves an empty stack empty |
| ThreadedVm.VM.AddOp | src/vm/mod.rs:71-74 | appends the operation and returns the op table's previous length |
| ThreadedVm.VM.AddInstruction | src/vm/mod.rs:77-79 | appends the op-table index to the instructions |
| ThreadedVm.VM.StackSize | src/vm/mod.rs:65-68 | the size is the number of values on the data stack |
| ThreadedVm.PushPop | src/vm/mod.rs:56-68 | pushing then popping returns the pushed value and restores the stack and its size |
| ThreadedVm.StackExample | src/vm/mod.rs:86-100 | after pushing 42 the size is 1, popping returns 42, and popping again gives StackUnderflow |
| ThreadedVm.RunExample | src/vm/mod.rs:102-121 | running a single instruction whose operation pushes 123 finishes with 123 on top |
| ThreadedVm.InvalidOpCodeExample | src/vm/mod.rs:123-132 | running instruction 999 with no operations fails with InvalidOpCode(999) |
| BytecodeVm.BuiltinStackEffect | src/builtins.rs:14-117 | a built-in succeeds exactly when the stack holds as many values as it consumes (and, for call, the top is a lambda), and then changes the depth by its fixed effect |
| BytecodeVm.BuiltinEffect | src/builtins.rs:14-117 | a successful built-in changes the stack depth by its own fixed amount; only `call` moves ip or the call stack, and it pushes the return address ip + 1; the only errors are StackUnderflow and, for `call`, UncallableObject |
| BytecodeVm.CopyingBuiltins | src/builtins.rs:40-88 | dup pushes a copy of the top, over a copy of the second from the top, and nip removes the second and keeps the top |
| BytecodeVm.SwapExchanges | src/builtins.rs:106-117 | swap exchanges the top two values, and swapping twice restores the stack |
| BytecodeVm.RotRotates | src/builtins.rs:90-104 | rot moves the third from the top to the top, and three rots restore the stack |
| BytecodeVm.CallBuiltin | src/builtins.rs:14-28 | call on a lambda pushes the address after the calling instruction onto the call stack and moves ip to one before the lambda's entry; anything else is popped and reported as uncallable |
| BytecodeVm.InsertBuiltin | src/builtins.rs:122-135 | the built-in is appended and its name maps to the position it lands at |
| BytecodeVm.DefineBuiltins | src/builtins.rs:9-120 | the table holds call, drop, dup, nip, pop, over, rot, swap in that order, and each name maps to its built-in's position |
| BytecodeVm.GetConstantPushes | src/vm.rs:69-75 | GetConstant pushes the constant its operand byte names and leaves ip on the operand; an operand or constant index out of bounds panics |
| BytecodeVm.ArithmeticPops | src/vm.rs:12-24 | an arithmetic opcode pops b then a and pushes a op b, or stops with the operator's error and both operands consumed |
| BytecodeVm.ComparisonPushes | src/vm.rs:81-86 | Equal, Less and Greater replace the top two values with one Boolean: `sem.equal(a, b)` for Equal, a parameter because IEEE NaN and signed zero make float equality differ from structural equality; a < b and a > b under the values' partial order |
| BytecodeVm.EqualPushes | src/vm.rs:81-86 | under the derived equality of src/value.rs:9, Equal on two values that are not both stand-ins pushes whether they are the same value |
| BytecodeVm.BinaryUnderflow | src/vm.rs:12-34 | a two-operand opcode with fewer than two values gives StackUnderflow, with the value it popped gone |
| BytecodeVm.NotNegates | src/vm.rs:87-100 | Not replaces a Boolean by its negation; any other value is pushed back and reported as InvalidValueType |
| BytecodeVm.JumpsMove | src/vm.rs:111-126 | Jump sets ip to its operand; MarkJump first pushes ip+2 onto the call stack; neither is followed by the increment |
| BytecodeVm.ReturnResumes | src/vm.rs:158-173 | Return with an empty call stack ends the run; otherwise it pops an address and the run resumes there, and a non-address ends the run with InvalidValueType |
| BytecodeVm.DropRemoves | src/vm.rs:145-147 | Drop removes the top value and underflows on an empty stack |
| BytecodeVm.SwapStep | src/vm.rs:148-153 | Swap exchanges the top two values and underflows with fewer than two |
| BytecodeVm.CallStackTransfers | src/vm.rs:133-144 | ToCallStack moves the top to the call stack and FromCallStack moves it back, restoring both stacks; CopyCallStack pushes a copy of the call stack's top |
| BytecodeVm.StackEffect | src/vm.rs:68-174 | every instruction except a built-in call that goes on changes the data stack depth by its opcode's fixed effect |
| BytecodeVm.Step | src/vm.rs:57-66 | a byte that does not decode faults with InvalidOpCode carrying the byte and leaves the state as it was |
| BytecodeVm.StepHalts | src/vm.rs:158-173 | an instruction halts the machine exactly when it is a Return with an empty call stack, and it halts with the state unchanged |
| BytecodeVm.ExecFrom | src/vm.rs:52-180 | a run at or past the end finishes at once without change; with no fuel left before the end it stops where it is; a finished run is past the end or returned with an empty call stack |
| BytecodeVm.Resume | src/vm.rs:52-180 | after a halting instruction the run finishes in that state, and after a fault it fails there with that fault's error |
| BytecodeVm.VM.New | src/vm.rs:44-50 | a new machine is at ip 0 with both stacks empty |
| BytecodeVm.VM.Pop | src/vm.rs:26-34 | pops the top of the data stack, or gives nothing on an empty stack, and changes nothing else |
| BytecodeVm.VM.RunBuiltin | src/builtins.rs:14-117 | running a built-in's closure on the machine has the effect BuiltinEffect gives it |
| BytecodeVm.VM.Swap | src/builtins.rs:106-117 | pops b, then a, and pushes b and a back, with the effect of the swap built-in |
| BytecodeVm.VM.Binary | src/vm.rs:12-24 | the arithmetic and comparison opcodes have the effect BinaryStep gives them |
| BytecodeVm.VM.WithOperand | src/vm.rs:69-132 | GetConstant, Jump, MarkJump and CallTardiFn read their operand byte with the effect OperandStep gives them |
| BytecodeVm.VM.Return | src/vm.rs:158-173 | Return has the effect ReturnStep gives it |
| BytecodeVm.VM.Shuffle | src/vm.rs:87-157 | Not, the call-stack transfers, Drop, Swap and IP have the effect StackStep gives them |
| BytecodeVm.VM.ExecuteInstruction | src/vm.rs:57-174 | decoding the byte at ip (an undecodable byte is InvalidOpCode) and running it gives Step's result |
| BytecodeVm.VM.Execute | src/vm.rs:52-180 | execution starts at ip 0 and ends, errs or runs out of fuel exactly as ExecFrom says, so the lemmas above hold of each instruction it runs |
| StringWords.ByteIndexSpec | src/module/internal/strings.rs:307-329 | a byte offset is a char boundary exactly when it is the UTF-8 length of some prefix, and then it names that prefix |
| StringWords.CharAtRange | src/module/internal/strings.rs:89-109 | `nth` reads the char at an index from 0 to length - 1 and gives `#f` for any other index, a negative one included |
| StringWords.SplitOnceSpec | src/module/internal/strings.rs:266-286 | a split cuts at the first occurrence and keeps the text on both sides; it fails exactly when the pattern does not occur |
| StringWords.SplitAllJoin | src/module/internal/strings.rs:289-304 | the pieces of split-all joined with the pattern give back the string |
| StringWords.SplitAllPieces | src/module/internal/strings.rs:289-304 | no piece of a split on a non-empty pattern contains the pattern |
| StringWords.SplitAllOf | src/module/internal/strings.rs:289-304 | there is always at least one piece; an empty pattern gives one piece per char plus an empty piece at each end; a pattern that does not occur gives the string alone |
| StringWords.PopAny | src/module/internal/strings.rs:89-109 | a pop succeeds exactly on a non-empty stack and takes its top value; on an empty stack it fails with StackUnderflow and changes nothing |
| StringWords.PopString | src/module/internal/strings.rs:89-109 | a string pop takes the top value when it is a string; a failure leaves the stack unchanged (StackUnderflow) or with the top removed (TypeMismatch with the word's message) |
| StringWords.PopInteger | src/module/internal/strings.rs:89-109 | an integer pop takes the top value when it is an integer; a failure leaves the stack unchanged (StackUnderflow) or with the top removed (TypeMismatch with the word's message) |
| StringWords.PopPair | src/module/internal/strings.rs:164-180 | a pair pop takes the top two values when both are strings, the lower one first; a failure has removed at most those two values and nothing below them |
| StringWords.NthEffect | src/module/internal/strings.rs:89-109 | nth consumes its two arguments and pushes one result; on an error it has removed at most those two and nothing below |
| StringWords.IsEmptyEffect | src/module/internal/strings.rs:127-137 | empty? consumes its string and pushes one result; on an error it has removed at most that one value |
| StringWords.IsInEffect | src/module/internal/strings.rs:140-161 | in? consumes two arguments and pushes one result; on an error it has removed at most those two |
| StringWords.StartsWithEffect | src/module/internal/strings.rs:164-180 | starts-with? consumes two strings and pushes one result; on an error it has removed at most those two |
| StringWords.EndsWithEffect | src/module/internal/strings.rs:183-199 | ends-with? consumes two strings and pushes one result; on an error it has removed at most those two |
| StringWords.IndexOfEffect | src/module/internal/strings.rs:202-224 | index-of consumes two strings and pushes one result; on an error it has removed at most those two |
| StringWords.LengthEffect | src/module/internal/strings.rs:227-237 | length consumes its string and pushes one result; on an error it has removed at most that one value |
| StringWords.ReplaceAllEffect | src/module/internal/strings.rs:240-263 | replace-all consumes three strings and pushes one result; on an error it has removed at most those three |
| StringWords.SplitEffect | src/module/internal/strings.rs:266-286 | split consumes two strings and pushes two results; on an error it has removed at most those two |
| StringWords.SplitAllEffect | src/module/internal/strings.rs:289-304 | split-all consumes two strings and pushes one list; on an error it has removed at most those two |
| StringWords.SplitAtEffect | src/module/internal/strings.rs:307-329 | split-at consumes a string and an index and pushes two results; on an error it has removed at most those two |
| StringWords.SplitAtValues | src/module/internal/strings.rs:307-329 | a successful split-at always yields exactly two values |
| StringWords.StripStartEffect | src/module/internal/strings.rs:356-374 | strip-start consumes two strings and pushes one result; on an error it has removed at most those two |
| StringWords.StripEndEffect | src/module/internal/strings.rs:377-395 | strip-end consumes two strings and pushes one result; on an error it has removed at most those two |
| StringWords.SubstringEffect | src/module/internal/strings.rs:398-421 | substring consumes a string and two indices and pushes one result; on an error it has removed at most those three |
| StringWords.SplitAtBytesSpec | src/module/internal/strings.rs:307-329 | split-at's two parts concatenate to the string and the first has the requested byte length; it panics exactly when the offset falls inside a char |
| StringWords.SliceBytesSpec | src/module/internal/strings.rs:398-421 | a slice between the byte offsets of two char boundaries is the text between them |
| StringWords.StripInverse | src/module/internal/strings.rs:356-395 | stripping a prefix or a suffix undoes adding it, and what it leaves plus the affix is the string |
| StringWords.ReplaceAllIsJoin | src/module/internal/strings.rs:240-263 | replacing a target is joining the pieces between its occurrences with the replacement; an empty target puts the replacement before every char and at the end |
| StringWords.PopErrors | src/module/internal/strings.rs:89-109 | popping a string or an integer from an empty stack is StackUnderflow; from a stack topped by one it gives the value and the rest, and from one topped by anything else the word's TypeMismatch |
| StringWords.NthWord | src/module/internal/strings.rs:89-109 | nth pops an index and a string and pushes the char at that index or `#f` |
| StringWords.IsEmptyWord | src/module/internal/strings.rs:127-137 | empty? pushes whether the string has no chars |
| StringWords.IsInWord | src/module/internal/strings.rs:140-161 | in? pushes whether a string needle occurs or a char needle appears; any other needle is a TypeMismatch |
| StringWords.AffixWords | src/module/internal/strings.rs:164-199 | starts-with? and ends-with? push whether the sub is a prefix or a suffix |
| StringWords.IndexOfWord | src/module/internal/strings.rs:202-224 | index-of? pushes the byte offset of the first occurrence, or `#f` when there is none |
| StringWords.LengthWord | src/module/internal/strings.rs:227-237 | length pushes the UTF-8 byte length, not the char count |
| StringWords.ReplaceAllWord | src/module/internal/strings.rs:240-263 | replace-all pops replacement, target and string and pushes the string with every occurrence of the target replaced, an empty target included |
| StringWords.SplitWord | src/module/internal/strings.rs:266-286 | split pushes the text before and after the first occurrence, or the string and `#f` without one |
| StringWords.SplitAllWord | src/module/internal/strings.rs:289-304 | split-all pushes a list of the pieces, which rejoined give back the string |
| StringWords.SplitAtWord | src/module/internal/strings.rs:307-329 | split-at on a char boundary pushes the two sides; an offset past the end pushes the string back and `#f` |
| StringWords.StripWords | src/module/internal/strings.rs:356-395 | strip-start and strip-end remove a prefix or suffix the string has and otherwise push it back unchanged |
| StringWords.SubstringWord | src/module/internal/strings.rs:398-421 | substring between the byte offsets of two char boundaries pushes the chars between them |
| StringWords.SubstringPanics | src/module/internal/strings.rs:398-421 | substring with a start after its end panics |
| StringWords.StringVm.Pop | src/module/internal/strings.rs:89-109 | popping gives the top or StackUnderflow, as PopAny says |
| StringWords.StringVm.PopStr | src/module/internal/strings.rs:89-109 | popping a string gives its text or the word's TypeMismatch, as PopString says |
| StringWords.StringVm.PopInt | src/module/internal/strings.rs:89-109 | popping an integer gives its value or the word's TypeMismatch, as PopInteger says |
| StringWords.StringVm.PopTwo | src/module/internal/strings.rs:164-180 | popping the sub and then the string, with the word's two messages, as PopPair says |
| StringWords.StringVm.Nth | src/module/internal/strings.rs:89-109 | the stack and error after nth are NthEffect's |
| StringWords.StringVm.IsEmpty | src/module/internal/strings.rs:127-137 | the stack and error after empty? are IsEmptyEffect's |
| StringWords.StringVm.IsIn | src/module/internal/strings.rs:140-161 | the stack and error after in? are IsInEffect's |
| StringWords.StringVm.StartsWith | src/module/internal/strings.rs:164-180 | the stack and error after starts-with? are StartsWithEffect's |
| StringWords.StringVm.EndsWith | src/module/internal/strings.rs:183-199 | the stack and error after ends-with? are EndsWithEffect's |
| StringWords.StringVm.IndexOf | src/module/internal/strings.rs:202-224 | the stack and error after index-of? are IndexOfEffect's |
| StringWords.StringVm.Length | src/module/internal/strings.rs:227-237 | the stack and error after length are LengthEffect's |
| StringWords.StringVm.ReplaceAllWord | src/module/internal/strings.rs:240-263 | the stack and error after replace-all are ReplaceAllEffect's |
| StringWords.StringVm.Split | src/module/internal/strings.rs:266-286 | the stack and error after split are SplitEffect's |
| StringWords.StringVm.SplitAll | src/module/internal/strings.rs:289-304 | the stack and error after split-all are SplitAllEffect's |
| StringWords.StringVm.SplitAt | src/module/internal/strings.rs:307-329 | the stack and error after split-at are SplitAtEffect's |
| StringWords.StringVm.StripStart | src/module/internal/strings.rs:356-374 | the stack and error after strip-start are StripStartEffect's |
| StringWords.StringVm.StripEnd | src/module/internal/strings.rs:377-395 | the stack and error after strip-end are StripEndEffect's |
| StringWords.StringVm.Substring | src/module/internal/strings.rs:398-421 | the stack and error after substring are SubstringEffect's |
| BytecodeCompiler.EmitOpsSpec | src/compiler/mod.rs:131-140 | emitting ops keeps constants, table and map; it fails exactly when some name is unmapped, and otherwise appends exactly their op indices in order |
| BytecodeCompiler.EmitOpsFirstMissing | src/compiler/mod.rs:131-140 | at the first unmapped name, the ops before it are appended and `"<name> operation not found"` is reported |
| BytecodeCompiler.EmitOps | src/compiler/mod.rs:131-140 | emitting named ops changes only the instructions, which only grow: by one per name when every name is known, by fewer on the first unknown name, which gives InvalidOperation |
| BytecodeCompiler.TokenStep | src/compiler/mod.rs:36-77 | a token never changes the op map or op table; constants and instructions only grow, with exactly one constant more for a literal and none otherwise; a word or unsupported token is an error that changes nothing |
| BytecodeCompiler.CompileAll | src/compiler/mod.rs:28-34 | compiling never changes the op map or op table, constants and instructions only grow, and an error anywhere in the token stream makes the result an error |
| BytecodeCompiler.LiteralEmits | src/compiler/mod.rs:79-129 | a literal adds its value as the next constant; with `lit` mapped it appends `lit` and the constant's index, otherwise it reports `lit operation not found` after adding the constant |
| BytecodeCompiler.BangEqualExpands | src/compiler/mod.rs:55-58 | `!=` compiles to the `==` op followed by the `!` op |
| BytecodeCompiler.LessEqualExpands | src/compiler/mod.rs:61-64 | `<=` compiles to the `>` op followed by the `!` op |
| BytecodeCompiler.GreaterEqualExpands | src/compiler/mod.rs:65-68 | `>=` compiles to the `<` op followed by the `!` op |
| BytecodeCompiler.OperatorStep | src/compiler/mod.rs:43-69 | every operator token compiles to its op names emitted in order |
| BytecodeCompiler.UnsupportedTokens | src/compiler/mod.rs:70-75 | a word is rejected as `UnsupportedToken("word: …")`, any other token as `UnsupportedToken` of its debug text, leaving the program unchanged |
| BytecodeCompiler.UnmappedOp | src/compiler/mod.rs:131-140 | an operator whose first op name is unmapped fails with `"<name> operation not found"` and leaves the program unchanged |
| BytecodeCompiler.CompileAppend | src/compiler/mod.rs:28-34 | compiling a + b is compiling a, then b from where a left off, unless a already failed |
| BytecodeCompiler.CompileStops | src/compiler/mod.rs:29-31 | an error in the token stream stops compilation with that error, after the tokens before it |
| BytecodeCompiler.CompileAppends | src/compiler/mod.rs:28-34 | compilation only appends: earlier constants and instructions are kept as prefixes, the op table and map are untouched |
| BytecodeCompiler.CompileSizes | src/compiler/mod.rs:28-140 | when every token is compilable, compilation succeeds with one constant per literal and the summed instruction widths |
| BytecodeCompiler.Program.New | src/compiler/program.rs:34-41 | a new program is empty |
| BytecodeCompiler.Program.AddConstant | src/compiler/program.rs:43-46 | the value is appended and its index returned, and looking that index up gives the value back |
| BytecodeCompiler.Program.GetConstant | src/compiler/program.rs:48-50 | none exactly when the index is out of range, else the constant there |
| BytecodeCompiler.Program.AddInstruction | src/compiler/program.rs:52-54 | the op index is appended to the instructions and nothing else changes |
| BytecodeCompiler.Program.AddOp | src/compiler/program.rs:56-58 | the op's code is appended and decodes back to the op |
| BytecodeCompiler.Program.AddOpArg | src/compiler/program.rs:60-63 | exactly two entries are appended: the op's code, which decodes back to the op, and the argument |
| BytecodeCompiler.Program.SetOpTable | src/compiler/program.rs:65-67 | only the op table is replaced |
| BytecodeCompiler.Program.SetOpMap | src/compiler/program.rs:69-71 | only the op map is replaced |
| BytecodeCompiler.Program.GetOpIndex | src/compiler/mod.rs:131-137 | the index of a name is found exactly when the op map has it |
| BytecodeCompiler.Program.GetOpName | src/compiler/program.rs:81-86 | a found name maps to the op code; none is found exactly when no name maps to it |
| BytecodeCompiler.Program.GetInstruction | src/compiler/program.rs:90-92 | none exactly when `ip` is past the instructions, else the instruction there |
| BytecodeCompiler.Program.GetOp | src/compiler/program.rs:98-100 | none exactly when the index is past the op table, else the entry there |
| BytecodeCompiler.Compiler.New | src/compiler/mod.rs:20-26 | a new compiler holds an empty program with the given op table and map |
| BytecodeCompiler.Compiler.CompileOp | src/compiler/mod.rs:131-140 | the effect and error are `EmitOps` of one name |
| BytecodeCompiler.Compiler.CompileLiteral | src/compiler/mod.rs:79-129 | the effect and error are `LiteralStep` |
| BytecodeCompiler.Compiler.CompileOps | src/compiler/mod.rs:55-68 | the effect and error are `EmitOps` of the names in order |
| BytecodeCompiler.Compiler.CompileToken | src/compiler/mod.rs:36-77 | the effect and error are `TokenStep` |
| BytecodeCompiler.Compiler.Compile | src/compiler/mod.rs:28-34 | the loop leaves the program at `CompileAll` and returns its first error, or a copy of the program |

## Left out

- Floating point: float values are opaque. They are kept as their 64-bit pattern, or as their source text in the scanners. Float parsing, float arithmetic and float display are not modelled. Where values compare floats, the float equality and ordering are parameters (`Values.FloatOps`, and `equal` and `compare` in `BytecodeVm.Semantics`), and the symmetry lemmas assume that it behaves.
- WordScanner.FromStr: a word that `str::parse::<f64>` accepts becomes `Float(word)`. The accepted syntax is modelled (`IsF64Literal`), but the value is not.
- WordScanner.ParseRational: mixed fractions (`1+2/3`, `1-2/3`) are modelled, but only simple fractions (`numer/den`) have a lemma through `from_str` (`SimpleFraction`).
- WordScanner.UnicodeShape: states that a `\u` escape needs `{` and a Unicode scalar value. It does not restate the hex-digit check, which is in `UnicodeOf`.
- WordScanner.QuotedRoundTrip: covers `"…"` strings. Long strings (`"""…"""`) are modelled in `QuotedOf` but have no round-trip lemma.
- WordScanner: an unterminated `\u{` escape at the very end of the input can move the cursor past the input's end. So `Placed` bounds a token's start but not its end.
- ModuleManager::find's search of the file system (src/module/mod.rs:261-318) is I/O. `ModuleSystem.Find` models only the relative-path guard and which route a name takes.
- The file-system, I/O, reader and writer modules, and the image, configuration and command-line code, are I/O or rest on foreign crates.
- Values: the display of hash maps, functions, literals, readers and writers is not modelled (`ValueShow` gives none for them). Neither is hashing.
- Values: a built-in function is identified by a number, and compiled functions compare by their entry point only, not by their words. Function-pointer identity (`ptr::eq`) is not modelled.
- Values: a `Literal` holds only the data of the boxed value. The `Value` wrapper around the data is not part of this model.
- Values: `Rc<RefCell<…>>` sharing is not modelled. Lists and hash maps hold values, so aliasing through shared cells is not captured.
- Environments.Environment.GetOrCreateModule: returns the module's value, not a mutable reference into the map. Later updates go through the environment's methods.
- ThreadedVm: an operation (`OpFn`) is a function of the instruction pointer and the data stack. Operations that reach the rest of the VM or the compiler are not modelled.
- ThreadedVm.VM.Run and BytecodeVm.VM.Execute: both loops may run forever, so they run for at most `fuel` steps and report `OutOfFuel` when it runs out.
- BytecodeVm: src/vm.rs uses opcodes and values that the opcode table beside it lacks. The byte decoder, the arithmetic on values, their equality and their partial ordering are therefore parameters (`Semantics`). Equality agrees with the derived `PartialEq` except between two stand-ins (floats, rationals and strings), where IEEE NaN and signed zero make it differ from structural equality. MarkJump's `Value::from(usize)` is modelled as an `Address`.
- BytecodeVm.CallBuiltin: `ip - 1` is computed in `usize`, and wraps at 2^64 for an entry point of 0 (`WrapUsize`), as in a release build. The overflow panic of a debug build is not modelled.
- InternalRegistry: `STRINGS` is taken to be `"std/strings"`, following the naming of the other seven internal modules. Each built-in string word is identified by its position in the word list. The builders of the other internal modules (kernel, fs, io, sandbox, scanning, vectors, internals) are not modelled.
- StringWords: the words `<string>`, `>string`, `utf8>string` and `concat` are not modelled. They delegate to VM methods outside this model.
- StringWords: the words `>utf8`, `split-whitespace`, `lines`, `>lowercase` and `>uppercase` are not modelled. They build byte vectors or depend on Unicode tables.
- StringWords: `Value::from(Vec<&str>)`, used by `split-all`, is modelled as a list of strings.
- BytecodeCompiler: `Compiler::new` calls a two-argument `set_op_table` that `Program` does not have. It is modelled as `SetOpTable` plus `SetOpMap`, with `create_op_table`'s result passed to the constructor.
- BytecodeCompiler: `get_op_index` is not defined on `Program`. It is modelled as a lookup in the op map (`Program.GetOpIndex`).
- BytecodeCompiler: `add_op` and `add_op_arg` encode opcodes with the `VmOps` table.
- BytecodeCompiler: tokens carry only their type. Their position fields are not used by the compiler.
- BytecodeCompiler: an unsupported token's Debug text is a parameter of `Other`. Errors in the token stream are carried as `Upstream`.
- BytecodeCompiler: `Program::clone` is the value `Snapshot()`.
- BytecodeCompiler.Program.GetOpName: the search follows the hash map's iteration order, so the model takes any matching name. The contract names no particular one.
- BytecodeCompiler: `get_op_table_size`, `get_instructions` and `instructions_len` are plain reads of the fields and are not modelled separately.
- WordScanner.Scanner.ScanUntil: implements the documented behaviour (`ScanUntilFixed`). The code as written is `ScanUntilOf`, which reports `EndOfFile(close)` when the close token is the last word (see Findings).
- Values.Add: the mismatch message is the fixed text `addition`. The source formats both operands with their derived Debug text (`{:?} + {:?}`), which is not modelled.
- Chunks.Chunk: the `dictionary` field (a map from names to functions) is not modelled. `Chunk::new` makes it empty, and no other `Chunk` operation touches it.
- Debug and trace printing, and the error enums' Display text, are not modelled.

## Findings

| source | as written | input that shows it | evidently intended | confidence | as-written member | corrected member |
|---|---|---|---|---|---|---|
| src/scanner.rs:478-494 | after the loop, `is_eof()` decides the result, so a `close` token that is the last word of the input, with nothing after it, still gives `EndOfFile(close)` | input `]` scanned with close `CloseBracket` | the doc comment at lines 474-475: the tokens before `close` (here none), and `EndOfFile(close)` only when the input runs out first | high; not executed | WordScanner.ScanUntilAsWritten | WordScanner.ScanUntilTokens |
