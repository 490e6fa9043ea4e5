# jsoncc core in Dafny

A model of the core of jsoncc, a C++ JSON decoder and value library, with proofs about it.
It covers three layers.

- **Decoding front end.**
  - The byte-at-a-time UTF-8 validator (`utf8.dfy`). It is proved to accept exactly the UTF8-octets language of section 4 of RFC 3629.
  - The `Utf8Stream` byte stream (`utf8stream.dfy`). It has sticky BAD and EOF flags, rejects NUL, and keeps a high-water mark so each byte reaches the validator once.
  - The token stream (`tokens.dfy`, `string_scanner.dfy`, `number_scanner.dfy`, `token_stream.dfy`). It skips whitespace, dispatches on the lead byte, matches literals, runs the string state machine (with `\uXXXX` to UTF-8) and runs the number transition table with its 1024-byte buffer and int64 conversion. Section 2, section 6 and section 7 of RFC 7159 describe the grammar it follows.
  - `lexer_props.dfy` proves what a whole `scan` does on concrete shapes of input.
- **Value tree and equality.**
  - `json.dfy` holds the value data model: tags, number types, error kinds and `operator bool`.
  - `number.dfy`, `tagged_type.dfy`, `value.dfy`, `member.dfy`, `array.dfy` and `object.dfy` hold the library's value classes.
  - `factories.dfy` holds the container `ValueFactory` templates.
  - `comparison.dfy` models strict `operator==`.
  - `equal.dfy` models `Json::equal`. That relation treats object members as a multiset. It is proved equivalent to equality of a normal form.
- **Serialiser core** (`iostream.dfy`).
  - String quoting and escaping.
  - Container layout.
  - The `indent` stream filter's line-start rule.
  - Printing of every value kind.
  - `roundtrip.dfy` proves that the lexer reads back what the serialiser writes, for strings and integers.

The lexer and stream work in two steps:

- Each operation is first a function over a value snapshot of the stream's fields (`StreamView`).
- A class method that updates real fields is then proved to compute exactly that function.
- The properties are proved about the functions.

Bytes are a `byte` newtype (0..255). `getc`'s results stay `int` with `SEOF = -1` and `SBAD = -2`, as in the source.

Exceptions are modelled as an `Outcome` result or an `Option<Exception>` beside the state:

- the stream's `Json::Error` with kind `STREAM_ZERO` or `UTF8_INVALID` and the byte offset;
- the lexer's `std::runtime_error` carrying its message.

A number error does not throw: it only resets the token. A string error resets the token after one more read, and that read can itself throw a stream error (`STREAM_ZERO` or `UTF8_INVALID`), exactly as the source does.

Two things from outside are parameters:

- the floating-point conversion (`strtold` in `make_float`) is a function `bytes -> Option<Float>`;
- fixed-point printing is a function `Float -> bytes`.

The floating-point payload is an opaque type with equality.

## Model

| member | source | states |
|---|---|---|
| Types.Ascii | src/token-stream.cc:121-123 | the bytes of a literal's ASCII text, one byte per character |
| Utf8.Lead | src/utf8.cc:78-88 | the fall-through chain of the sequence-start labels ends in a case label the switch has, or in -1 when no sequence start matches |
| Utf8.NextState | src/utf8.cc:75-98 | from state 0: bytes 00-7F return to 0, each lead byte opens its own sequence, and 80-C1 / F5-FF give -1; inside a sequence: the narrowed second-byte ranges after E0, ED, F0, F4 and 80-BF elsewhere, returning to 0 after the last byte; the result is always -1 or a case label |
| Utf8.Feed | src/utf8.cc:109-112 | feeding a byte string keeps the state a case label or -1 |
| Utf8.CharLenUnique | src/utf8.cc:60-71 | a UTF8-char's length is fixed by its first byte |
| Utf8.FeedChar | src/utf8.cc:75-98 | feeding one complete UTF8-char from state 0 returns to state 0 |
| Utf8.FeedFirstChar | src/utf8.cc:75-98 | if a string is accepted from state 0, its first byte starts a complete UTF8-char |
| Utf8.FeedAcceptsUtf8 | src/utf8.cc:60-98 | feeding a string from state 0 ends in 0 if and only if it is in the RFC 3629 UTF8-octets language, with the narrowed ranges after E0, ED, F0 and F4 |
| Utf8.FeedSnoc | src/utf8.cc:109-112 | feeding one more byte is one more `next_state` step |
| Utf8.FeedErrorSticky | src/utf8.cc:89-97 | once -1 is reached, no further input leaves it |
| Utf8.Utf8Validator.constructor | src/utf8.cc:104-107 | a new validator is in state 0 |
| Utf8.Utf8Validator.Validate | src/utf8.cc:109-112 | the state becomes `next_state(old state, c)`, and the result is true if and only if that is not -1 |
| Utf8Streams.Init | src/utf8stream.cc:14-23 | the stream a constructor builds satisfies the stream invariant: the validator has been fed exactly the validated prefix, all of it deliverable |
| Utf8Streams.StateOf | src/utf8stream.cc:25-36 | SBAD if and only if bad; SEOF if and only if not bad and EOF; SGOOD otherwise (BAD takes precedence) |
| Utf8Streams.LocationOf | src/utf8stream.cc:73-76 | the reported offset is the read position |
| Utf8Streams.CleanPrefix | src/utf8stream.cc:49-60 | a prefix of a NUL-free, UTF-8-valid prefix is again one |
| Utf8Streams.CleanStep | src/utf8stream.cc:49-60 | extending the validated prefix by one byte is one validator step, and it stays valid exactly when the byte is not NUL and the validator accepts it |
| Utf8Streams.GetcSpec | src/utf8stream.cc:38-64 | on a bad stream, returns SBAD and changes nothing; at the end, sets EOF and returns SEOF without moving; a throw leaves the stream bad at the offending offset; a good read moves by one; any other return is the stream state |
| Utf8Streams.GetcInv | src/utf8stream.cc:38-64 | `getc` preserves `pos <= valid <= len` and the rule that the validator has seen exactly `buf[0..valid)` |
| Utf8Streams.GetcByte | src/utf8stream.cc:49-63 | at a byte in range: a NUL sets BAD and throws STREAM_ZERO at its offset; a rejected byte sets BAD and throws UTF8_INVALID at its offset; otherwise the byte is returned as 0..255 and the position grows by exactly one |
| Utf8Streams.UngetcSpec | src/utf8stream.cc:66-71 | steps back one byte only when the position is not 0 and the stream is neither bad nor at EOF; otherwise it changes nothing; keeps the invariant |
| Utf8Streams.MarkBad | src/utf8stream.cc:78-81 | `bad()` sets the BAD flag and nothing else, and the state becomes SBAD |
| Utf8Streams.GetcClean | src/utf8stream.cc:49-63 | on a clean byte, `getc` returns it and is one `Advance` step: the high-water mark moves forward only, the validator state follows it, and the invariant holds after |
| Utf8Streams.AdvanceAdd | src/utf8stream.cc:49-63 | advancing by a and then by b is advancing by a + b |
| Utf8Streams.RereadAfterUngetc | src/utf8stream.cc:55-71 | a byte read, pushed back and read again gives the same byte, and the validator is not fed a second time |
| Utf8Streams.Utf8Stream.constructor | src/utf8stream.cc:14-23 | the object's fields equal the initial snapshot |
| Utf8Streams.Utf8Stream.State | src/utf8stream.cc:25-36 | equals the state of the object's snapshot |
| Utf8Streams.Utf8Stream.Location | src/utf8stream.cc:73-76 | equals the location of the object's snapshot |
| Utf8Streams.Utf8Stream.Getc | src/utf8stream.cc:38-64 | the new fields and the result are exactly `GetcSpec` of the old fields, with the validator object stepped in place |
| Utf8Streams.Utf8Stream.Ungetc | src/utf8stream.cc:66-71 | the new fields are exactly `UngetcSpec` of the old fields |
| Utf8Streams.Utf8Stream.Bad | src/utf8stream.cc:78-81 | the new fields are the old ones with BAD set |
| Json.ValueIsSet | include/jsoncc.h:110-113 | a Value converts to true if and only if its tag is not TAG_INVALID |
| Json.ErrorIsSet | include/jsoncc.h:326-329 | an Error converts to true if and only if its kind is not OK |
| Tokens.TypeOf | src/token-stream.cc:115 | the token kind a byte stands for, when one does, has that byte as its code, and it is the only one |
| Tokens.HeaderBeginObjectCollides | src/token-stream.h:15-28 | as declared, BEGIN_OBJECT and END_OBJECT have the same code, and no kind has the code of `{` |
| Tokens.CodeInjective | src/token-stream.h:15-28 | with `{` given to BEGIN_OBJECT, distinct kinds have distinct codes |
| Tokens.Select | src/token-stream.cc:81-117 | the six structural bytes select the no-op scanner; `t`, `f`, `n` select the literal scanners, `"` the string scanner; `-` and digits select the number scanner with exactly one `ungetc` and kind NUMBER; everything else selects `invalid_token` with kind INVALID; otherwise the kind's code is the byte |
| Tokens.LiteralOf | src/token-stream.cc:121-123 | the literal scanners match "true", "false" and "null" |
| StringScanner.ScanRegular | src/token-stream.cc:148-161 | `"` ends the string, `\` enters escape mode, bytes 00-1F are an error, every other byte (including 80-FF) is appended unchanged |
| StringScanner.ScanEscaped | src/token-stream.cc:163-180 | `u` enters unicode mode; `\ / "` and `b f n r t` append their byte; anything else is an error |
| StringScanner.HexDigit | src/token-stream.cc:190-210 | exactly the digits and the letters a-f and A-F are hex digits, with values below 16 |
| StringScanner.Utf8Encode | src/token-stream.cc:213-233 | code point 0 is an error, D800-DFFF is a surrogate error, otherwise one to three bytes are appended |
| StringScanner.Utf8EncodeCorrect | src/token-stream.cc:213-233 | for a non-zero, non-surrogate code point the state stays SREGULAR and the appended bytes are one well-formed UTF-8 character that the validator of src/utf8.cc accepts from state 0 and that decodes back to the code point |
| StringScanner.EncodeTwo | src/token-stream.cc:220-222 | the two-byte form is a valid UTF-8 character that decodes to its value |
| StringScanner.EncodeThree | src/token-stream.cc:226-230 | the three-byte form is a valid UTF-8 character that decodes to its value |
| StringScanner.UScan | src/token-stream.cc:190-210 | a non-hex byte is an error; the first three hex digits stay in unicode mode and append nothing; the fourth hands the value to the encoder |
| StringScanner.UScanDigit | src/token-stream.cc:190-210 | each hex digit shifts the value by four bits, most significant digit first |
| StringScanner.UScanFour | src/token-stream.cc:190-210 | exactly four hex digits of either case, after `\u`, give `utf8encode` of their value |
| StringScanner.HexValue | src/token-stream.cc:190-210 | the value of four hex digits is below 0x10000 |
| StringScanner.StringStep | src/token-stream.cc:250-259 | one step of the string machine keeps the `\u` counter invariant; only unicode mode touches the counter |
| StringScanner.Decode | src/token-stream.cc:239-272 | running the string machine over a buffer stops at the closing quote or at an error state, having used at most the whole buffer |
| StringScanner.UEscape.constructor | src/token-stream.cc:184-188 | a new `uescape` has count and value 0 |
| StringScanner.UEscape.Scan | src/token-stream.cc:190-210 | the result and the new count and value are exactly `UScan` of the old ones |
| NumberScanner.Row | src/token-stream.cc:327-337 | every non-final state has a row of one to four transitions ending in the catch-all |
| NumberScanner.NumberStateOf | src/token-stream.cc:319-348 | the table walk finds the target of the first transition whose character set holds c, as `NextNumberState` states |
| NumberScanner.StepTable | src/token-stream.cc:327-337 | the next state for every state and input byte, written out as the grammar reads; `e`/`E` is accepted directly after `.` |
| NumberScanner.LookupStep | src/token-stream.cc:340-345 | one step of the table walk |
| NumberScanner.ByteSets | src/token-stream.cc:320-326 | the table's character sets hold exactly `-`, `+`, `0`, `.`, `eE`, 1-9 and 0-9 |
| NumberScanner.ContinuingByte | src/token-stream.cc:327-337 | a step that continues the number consumed a real byte, not SEOF or SBAD |
| NumberScanner.StepNotStart | src/token-stream.cc:327-337 | no transition leads back to the start state |
| NumberScanner.LookupIn | src/token-stream.cc:340-347 | the table walk always ends in one of the row's targets |
| NumberScanner.Digits | src/token-stream.cc:327-337 | the end of the maximal run of digits from a position |
| NumberScanner.RunEDigit | src/token-stream.cc:335-336 | after an exponent digit, the machine accepts exactly a run of digits |
| NumberScanner.RunE | src/token-stream.cc:333-336 | after `e`, the machine accepts exactly an optional sign followed by one or more digits |
| NumberScanner.RunExponent | src/token-stream.cc:329-336 | from any state that takes an exponent, input starting with `e`/`E` is accepted exactly when it is a well-formed exponent |
| NumberScanner.RunFracDigit | src/token-stream.cc:332-336 | after a fraction digit: more digits, then an optional exponent |
| NumberScanner.DigitsSuffix | src/token-stream.cc:327-337 | the digit run after a leading digit is the next run shifted by one |
| NumberScanner.DigitsFrom | src/token-stream.cc:327-337 | skipping digits first does not change where the run ends |
| NumberScanner.RunDecPoint | src/token-stream.cc:331-332 | after `.`, the machine accepts exactly digits with an optional exponent, or an exponent alone |
| NumberScanner.RunIntZero | src/token-stream.cc:329 | after a lone `0`, the machine accepts exactly an optional fraction and exponent |
| NumberScanner.RunIntDigit | src/token-stream.cc:330 | after a leading 1-9, more digits, then an optional fraction and exponent |
| NumberScanner.RunInt | src/token-stream.cc:327-330 | from the start or after `-`, the machine accepts exactly an integer part and an optional rest |
| NumberScanner.NumberLanguage | src/token-stream.cc:319-348 | for NUL-free input, the machine ends in an accepting state if and only if the input matches `-?(0\|[1-9][0-9]*)(\.[0-9]*)?([eE][+-]?[0-9]+)?`, where `.` must be followed by a digit or an exponent |
| NumberScanner.AcceptingEnds | src/token-stream.cc:327-337 | from an accepting state, any byte that is not a digit, `.` or an exponent letter ends the token |
| NumberScanner.ZeroThenDigit | src/token-stream.cc:329 | a digit after a lone `0` ends the token, so "00" is not one literal |
| NumberScanner.DotNeedsMore | src/token-stream.cc:331-332 | "1.e1" is a literal, "1." is not |
| NumberScanner.LeadingSpace | src/token-stream.cc:274-286 | the leading white space that `strtoll` skips never runs past the input |
| NumberScanner.MakeInt | src/token-stream.cc:274-286 | `make_int` on a non-empty buffer succeeds only if the buffer holds a digit (the value it gives is pinned by `RoundTrips.DecimalReadsBack`) |
| TokenStreams.SkipWs | src/token-stream.cc:62-64 | the `do`/`while` reads past what `is_ws` (src/token-stream.cc:20-23) accepts, space, tab, CR and LF only; it returns the first other byte, or the stream state when the stream is not good; it never moves backwards |
| TokenStreams.SkipWsStep | src/token-stream.cc:62-64 | one loop turn: a whitespace byte reads on, anything else ends the loop |
| TokenStreams.LiteralLoop | src/token-stream.cc:125-132 | the literal scanner leaves the token untouched |
| TokenStreams.StringLoop | src/token-stream.cc:239-272 | the string scanner keeps the token's kind unless it resets the token |
| TokenStreams.StringLoopStep | src/token-stream.cc:243-270 | a throwing `getc` passes the exception on; a non-good stream, or an error state, resets the token after one more read; otherwise one machine step |
| TokenStreams.NumberLoop | src/token-stream.cc:355-388 | the buffer stays below its size, holds no NUL and only grows |
| TokenStreams.NumberLoopThrows | src/token-stream.cc:356 | a throwing `getc` passes the exception on |
| TokenStreams.NumberLoopStep | src/token-stream.cc:357-387 | one loop turn: SDONE or SERROR pushes the byte back and stops; `.` and `e` make the kind FLOAT; filling the last byte gives NONE |
| TokenStreams.ValidateNumberSpec | src/token-stream.cc:350-391 | the literal is shorter than the buffer and holds no NUL |
| TokenStreams.ScanNumberSpec | src/token-stream.cc:393-414 | `scan_number` keeps the stream's buffer |
| TokenStreams.DispatchSpec | src/token-stream.cc:119-123 | each selected scanner keeps the stream's buffer |
| TokenStreams.ScanSpec | src/token-stream.cc:57-79 | `scan`: reset, skip whitespace, stop at EOF or BAD, else dispatch; the buffer is unchanged |
| TokenStreams.AfterSkip | src/token-stream.cc:66-75 | the part of `scan` after the whitespace loop keeps the buffer |
| TokenStreams.CString | src/token-stream.cc:274-286 | the C string in a buffer is the NUL-free prefix before the first NUL |
| TokenStreams.CStringOf | src/token-stream.cc:384 | a literal followed by the terminating NUL reads back as exactly that literal |
| TokenStreams.ValidateNumber | src/token-stream.cc:350-391 | the loop over the array buffer returns the kind, the stream and the terminated C string exactly as `ValidateNumberSpec` states |
| TokenStreams.TokenStream.constructor | src/token-stream.cc:52-55 | the token stream holds the byte stream and a reset token |
| TokenStreams.TokenStream.SelectScanner | src/token-stream.cc:81-117 | sets the token kind to `Select(c)`'s kind and pushes one byte back exactly when a number was selected |
| TokenStreams.TokenStream.ScanLiteral | src/token-stream.cc:125-132 | the stream, the token and what is thrown are exactly `LiteralLoop` |
| TokenStreams.TokenStream.ScanString | src/token-stream.cc:239-272 | the stream, the token and what is thrown are exactly `StringLoop` from SREGULAR |
| TokenStreams.TokenStream.ScanNumber | src/token-stream.cc:393-414 | the stream, the token and what is thrown are exactly `ScanNumberSpec` |
| TokenStreams.TokenStream.Scan | src/token-stream.cc:57-79 | the stream, the token and what is thrown are exactly `ScanSpec` |
| TokenStreams.TokenStream.Dispatch | src/token-stream.cc:75 | the stream, the token and what is thrown are exactly `DispatchSpec` of the selected scanner |
| LexerProperties.ScanAtEnd | src/token-stream.cc:59-68 | at the end of a good stream, `scan` sets EOF and leaves the token reset (INVALID), throwing nothing |
| LexerProperties.ScanOnBad | src/token-stream.cc:59-72 | on a bad stream, `scan` changes nothing but the token, which is reset |
| LexerProperties.SkipWsRun | src/token-stream.cc:62-64 | over k whitespace bytes and then a clean other byte, the loop consumes k + 1 bytes and returns that byte |
| LexerProperties.SkipWsToEnd | src/token-stream.cc:62-64 | over whitespace up to the end, the loop consumes all of it and returns SEOF with EOF set |
| LexerProperties.ScanWhitespaceOnly | src/token-stream.cc:57-68 | a buffer holding only whitespace scans to EOF with an INVALID token and no exception |
| LexerProperties.ScanLead | src/token-stream.cc:57-117 | after the whitespace, `scan` dispatches on the lead byte with the position after it, or before it for a number |
| LexerProperties.ScanStructural | src/token-stream.cc:86-88 | a structural byte after whitespace gives the token of that byte, consumes nothing more and throws nothing |
| LexerProperties.ScanInvalidByte | src/token-stream.cc:109-119 | any other lead byte gives an INVALID token and throws "invalid token" after consuming it |
| LexerProperties.LiteralRun | src/token-stream.cc:125-132 | when the buffer holds the rest of the literal, exactly that many bytes are consumed, and there is no check for a delimiter afterwards |
| LexerProperties.LiteralMismatch | src/token-stream.cc:127-130 | the first mismatching byte is consumed and the literal's text is thrown |
| LexerProperties.ScanLiteral | src/token-stream.cc:90-98 | whitespace, then `true`, `false` or `null`, gives that literal's token and consumes exactly the literal |
| LexerProperties.StringRun | src/token-stream.cc:239-272 | when the string machine reaches the closing quote after n bytes, the scanner consumes exactly n bytes and leaves the decoded string in the token |
| LexerProperties.StepNotUnterminated | src/token-stream.cc:245-259 | no scanner step produces SUNTERMINATED: only a read from a stream that is not good does |
| LexerProperties.StringErrorLast | src/token-stream.cc:243-267 | in an error state the loop still reads one byte, then resets the token and returns without throwing |
| LexerProperties.StringErrorRun | src/token-stream.cc:243-267 | when the string machine reaches an error state other than unterminated after n clean bytes, the scanner reads exactly n + 1 bytes (one past the byte that caused the error) and leaves the token reset, throwing nothing |
| LexerProperties.StringUnterminatedRun | src/token-stream.cc:243-267 | when the buffer ends before the closing quote, the scanner reads every remaining byte, meets EOF, and leaves the token reset with EOF set, throwing nothing |
| LexerProperties.FeedAscii | src/utf8.cc:75-98 | over bytes 00-7F the validator stays in state 0 |
| LexerProperties.AsciiClean | src/utf8stream.cc:49-63 | a run of non-NUL ASCII bytes at the front of the buffer is delivered by `getc` without an exception |
| LexerProperties.ZeroDigitsDecode | src/token-stream.cc:190-217 | four `0` digits of a `\u` escape build the value 0, which `utf8encode` rejects as SZERO after exactly those four bytes |
| LexerProperties.EscapedNulDecodes | src/token-stream.cc:148-217 | the six bytes of the escape `\u0000` take the string machine from SREGULAR to SZERO |
| LexerProperties.ScanEscapedNul | src/token-stream.cc:239-272 | `scan` of `"\u0000` and one more ASCII byte reads all eight bytes and leaves the token reset, throwing nothing |
| LexerProperties.ScanRawControl | src/token-stream.cc:148-161 | `scan` of a quote, the raw byte 0x01 and one more ASCII byte reads all three and leaves the token reset, throwing nothing |
| LexerProperties.ScanQuoted | src/iostream.cc:82-117 | the output of `quote` for a NUL-free string lexes back as one STRING token holding that string, consuming exactly the quoted text |
| LexerProperties.FloatStatesNeedSymbol | src/token-stream.cc:362-365 | the FLOAT states are reached only over a `.` or an exponent letter |
| LexerProperties.NumberRun | src/token-stream.cc:355-386 | over an integer literal followed by a byte that ends it, the loop collects exactly the literal, keeps the kind, and pushes the ending byte back |
| LexerProperties.NumberFill | src/token-stream.cc:374-378 | a literal that fills the buffer gives NONE after exactly size bytes, with no push-back |
| LexerProperties.DigitsOfLength | src/iostream.cc:164-167 | a number below 10^k prints in at most k digits |
| LexerProperties.DecimalShort | src/token-stream.cc:395 | an int64 prints in at most 20 bytes, well within the 1024-byte buffer |
| LexerProperties.AdvanceAfterUnget | src/token-stream.cc:106 | reading a bytes, pushing the last one back and reading b more is reading a - 1 + b bytes |
| LexerProperties.ScanNumberLead | src/token-stream.cc:102-107 | whitespace, then `-` or a digit, makes `scan` run the number scanner from the lead byte itself |
| LexerProperties.NumberIntConvert | src/token-stream.cc:396-403 | an INT literal becomes the token's int value when `make_int` accepts it, and a reset token otherwise |
| LexerProperties.NumberSpecInt | src/token-stream.cc:393-414 | an integer literal ended by a delimiter gives the int token `make_int` makes of it, with the delimiter pushed back |
| LexerProperties.ScanInteger | src/token-stream.cc:57-117 | a whole `scan` over whitespace and an integer literal gives that int token, with the delimiter pushed back |
| LexerProperties.ScanLongNumber | src/token-stream.cc:374-378 | a literal of 1024 bytes or more gives a reset token after 1024 bytes have been read |
| LexerProperties.NumberRunEnd | src/token-stream.cc:355-386 | over an integer literal that runs to the end of the buffer, the loop collects all of it, keeps the kind, and ends on SEOF with EOF set, where the push-back does nothing |
| LexerProperties.NumberSpecIntAtEnd | src/token-stream.cc:393-403 | an integer literal ended by the end of the buffer gives the int token `make_int` makes of it, or a reset token, with EOF set |
| LexerProperties.ScanIntegerAtEnd | src/token-stream.cc:57-117 | a whole `scan` over whitespace and an integer literal that runs to the end of the buffer gives that int token (or a reset token); the stream stands at the end with EOF set |
| LexerProperties.NumberRunError | src/token-stream.cc:380-386 | over a literal followed by a byte the table rejects, the loop collects the literal, pushes that byte back, and reports NONE whatever kind the literal had reached |
| LexerProperties.NumberNoneConvert | src/token-stream.cc:410-412 | NONE from `validate_number` resets the token |
| LexerProperties.NumberSpecError | src/token-stream.cc:380-412 | a literal the table rejects at a clean byte gives the reset token, with that byte pushed back |
| LexerProperties.ScanNumberError | src/token-stream.cc:380-412 | a whole `scan` over whitespace and a literal that breaks the number grammar at a clean byte gives the reset token, with that byte pushed back and nothing thrown |
| LexerProperties.ScanMinusNonDigit | src/token-stream.cc:380-412 | `-` followed by an ASCII byte that is not a digit reads both, pushes the second back, and gives the reset token |
| LexerProperties.DecimalFacts | src/token-stream.cc:274-286 | the decimal form of an int64 is an accepted integer literal of at most 20 bytes, with no `.` or exponent, that `make_int` reads back as the same number |
| LexerProperties.DecimalBuffer | src/token-stream.cc:355-386 | a printed int64 followed by a delimiter is an accepted literal of at most 20 bytes that the table ends at the delimiter and `make_int` reads back |
| LexerProperties.ScanDecimal | src/iostream.cc:164-165 | an int64 printed in decimal and followed by a delimiter lexes back as one INT token with the same value |
| LexerProperties.ScanDecimalAtEnd | tests/test-token-stream.cc:138-226 | an int64 printed in decimal with nothing after it (as `0`, `-5` and `-102030405060708090` are) lexes back as one INT token with the same value, and the stream ends with EOF set |
| Numbers.Default | src/number.cc:11-15 | a default Number has TYPE_INVALID |
| Numbers.FromUint8 | src/number.cc:29-35 | uint8 gives TYPE_UINT with the value preserved |
| Numbers.FromUint16 | src/number.cc:45-51 | uint16 gives TYPE_UINT with the value preserved |
| Numbers.FromUint32 | src/number.cc:61-67 | uint32 gives TYPE_UINT with the value preserved |
| Numbers.FromUint64 | src/number.cc:77-83 | uint64 gives TYPE_UINT with the value preserved |
| Numbers.FromInt8 | src/number.cc:37-43 | int8 gives TYPE_INT with the value preserved |
| Numbers.FromInt16 | src/number.cc:53-59 | int16 gives TYPE_INT with the value preserved |
| Numbers.FromInt32 | src/number.cc:69-75 | int32 gives TYPE_INT with the value preserved |
| Numbers.FromInt64 | src/number.cc:85-91 | int64 gives TYPE_INT with the value preserved |
| Numbers.FromFp | src/number.cc:93-115 | the floating constructors give TYPE_FP with the value preserved |
| Numbers.SignednessDecidesType | src/number.cc:29-43 | the same 1 from uint8 and from int8 gives two different numbers, typed UINT and INT |
| TaggedTypes.Denote | src/tagged-type.cc:184-229 | a matching tag and payload stand for a value of that tag |
| TaggedTypes.PayloadOf | src/tagged-type.cc:135-182 | every value has a payload that stands for it |
| TaggedTypes.TaggedType.constructor | src/tagged-type.cc:36-41 | a default TaggedType is TAG_INVALID |
| TaggedTypes.TaggedType.Copy | src/tagged-type.cc:43-48 | a copy holds the same value |
| TaggedTypes.TaggedType.Clone | src/tagged-type.cc:64-102 | after `clone`, the tag and the deep-copied payload stand for the source's value |
| TaggedTypes.TaggedType.Clear | src/tagged-type.cc:104-133 | whatever the tag was, `clear` leaves TAG_INVALID |
| TaggedTypes.TaggedType.Assign | src/tagged-type.cc:50-57 | assignment leaves the source's value; self-assignment changes nothing |
| TaggedTypes.TaggedType.SetNull | src/tagged-type.cc:135-140 | `set(Null)` leaves NULL whatever was held before |
| TaggedTypes.TaggedType.SetTrue | src/tagged-type.cc:142-147 | `set(True)` leaves TRUE |
| TaggedTypes.TaggedType.SetFalse | src/tagged-type.cc:149-154 | `set(False)` leaves FALSE |
| TaggedTypes.TaggedType.SetNumber | src/tagged-type.cc:156-161 | `set(Number)` leaves a NUMBER holding that number |
| TaggedTypes.TaggedType.SetString | src/tagged-type.cc:163-168 | `set(String)` leaves a STRING holding that string |
| TaggedTypes.TaggedType.SetObject | src/tagged-type.cc:170-175 | `set(Object)` leaves an OBJECT holding those members |
| TaggedTypes.TaggedType.SetArray | src/tagged-type.cc:177-182 | `set(Array)` leaves an ARRAY holding those elements |
| TaggedTypes.TaggedType.Tag | src/tagged-type.cc:184-187 | `tag()` is the tag of the value held |
| TaggedTypes.TaggedType.Number | src/tagged-type.cc:210-215 | requires TAG_NUMBER; the value held is that number |
| TaggedTypes.TaggedType.String | src/tagged-type.cc:217-222 | requires TAG_STRING; the value held is that string |
| TaggedTypes.TaggedType.Object | src/tagged-type.cc:189-229 | requires TAG_OBJECT; the value held is that member list |
| TaggedTypes.TaggedType.Array | src/tagged-type.cc:224-229 | requires TAG_ARRAY; the value held is that element list |
| Values.Value.Tag | src/value.cc:48-116 | the tag of the value held |
| Values.Value.IsSet | include/jsoncc.h:110-113 | `operator bool` is true if and only if the tag is not TAG_INVALID |
| Values.Value.constructor | src/value.cc:30-33 | `Value()` is TAG_INVALID |
| Values.Value.Copy | src/value.cc:35-38 | a copy holds the same value |
| Values.Value.OfNull | src/value.cc:48-81 | `Value(Null)` holds NULL |
| Values.Value.OfTrue | src/value.cc:48-81 | `Value(True)` holds TRUE |
| Values.Value.OfFalse | src/value.cc:48-81 | `Value(False)` holds FALSE |
| Values.Value.OfNumber | src/value.cc:48-81 | `Value(Number)` holds that number |
| Values.Value.OfString | src/value.cc:48-81 | `Value(String)` holds that string |
| Values.Value.OfObject | src/value.cc:48-81 | `Value(Object)` holds the object's members |
| Values.Value.OfArray | src/value.cc:48-81 | `Value(Array)` holds the array's elements |
| Values.Value.Assign | src/value.cc:40-46 | assignment leaves the source's value; self-assignment changes nothing |
| Values.Value.SetNull | src/value.cc:83-116 | `set(Null)` leaves NULL |
| Values.Value.SetTrue | src/value.cc:83-116 | `set(True)` leaves TRUE |
| Values.Value.SetFalse | src/value.cc:83-116 | `set(False)` leaves FALSE |
| Values.Value.SetNumber | src/value.cc:83-116 | `set(Number)` leaves that number |
| Values.Value.SetString | src/value.cc:83-116 | `set(String)` leaves that string |
| Values.Value.SetObject | src/value.cc:83-116 | `set(Object)` leaves the object's members |
| Values.Value.SetArray | src/value.cc:83-116 | `set(Array)` leaves the array's elements |
| Values.BuildBool | src/value.cc:118-125 | true gives TAG_TRUE, false gives TAG_FALSE |
| Values.BuildUint8 | src/value.cc:127-130 | a NUMBER of TYPE_UINT with the same value |
| Values.BuildUint16 | src/value.cc:137-140 | a NUMBER of TYPE_UINT with the same value |
| Values.BuildUint32 | src/value.cc:147-150 | a NUMBER of TYPE_UINT with the same value |
| Values.BuildUint64 | src/value.cc:157-160 | a NUMBER of TYPE_UINT with the same value |
| Values.BuildInt8 | src/value.cc:132-135 | a NUMBER of TYPE_INT with the same value |
| Values.BuildInt16 | src/value.cc:142-145 | a NUMBER of TYPE_INT with the same value |
| Values.BuildInt32 | src/value.cc:152-155 | a NUMBER of TYPE_INT with the same value |
| Values.BuildInt64 | src/value.cc:162-165 | a NUMBER of TYPE_INT with the same value |
| Values.BuildFp | src/value.cc:167-180 | a NUMBER of TYPE_FP |
| Members.Member.constructor | src/member.cc:11-15 | a default Member has an empty key and an INVALID value |
| Members.Member.Of | src/member.cc:29-35 | requires a non-empty key; holds exactly the key and the value given |
| Members.Member.Copy | src/member.cc:17-27 | a copy holds both fields of the source |
| Members.Member.Assign | src/member.cc:37-53 | assignment copies both fields; self-assignment changes nothing |
| Members.Member.Key | src/member.cc:55-58 | `key()` is the key supplied at construction |
| Members.Member.Value | src/member.cc:60-63 | `value()` is the value supplied at construction |
| Members.Member.Content | src/member.cc:55-63 | the key/value pair the object holds |
| Arrays.Array.constructor | src/array.cc:11-14 | a default Array is empty |
| Arrays.Array.OfList | src/array.cc:11-14 | an Array from a list holds that list in order |
| Arrays.Array.Range | include/jsoncc.h:237-241 | `Array(first, last)` holds exactly the range's elements, in order |
| Arrays.Array.Copy | src/array.cc:16-19 | a copy holds the same element sequence |
| Arrays.Array.Move | src/array.cc:21-24 | the new array takes the elements and the source is left empty |
| Arrays.Array.Assign | src/array.cc:26-32 | assignment copies the element sequence; self-assignment changes nothing |
| Arrays.Array.MoveAssign | src/array.cc:34-40 | move assignment takes the elements and leaves another source empty |
| Arrays.Array.Append | src/array.cc:42-46 | `<<` appends at the end: one element longer, the old prefix unchanged, the last element the argument |
| Arrays.Array.Elements | src/array.cc:48-51 | `elements()` is the element sequence in insertion order |
| Arrays.Array.Content | src/array.cc:48-51 | the ARRAY value holding those elements |
| Objects.FirstWithKey | src/object.cc:64-70 | the index of the first member with the key, or the length when there is none |
| Objects.Lookup | src/object.cc:64-70 | the value of the first member with the key; INVALID when no member has it |
| Objects.LookupAppendPresent | src/object.cc:47-70 | appending a member does not change the lookup of a key already present, so duplicates are shadowed |
| Objects.LookupAppendAbsent | src/object.cc:47-70 | appending a member with a new key makes its lookup the member's value |
| Objects.FirstWithKeyAppend | src/object.cc:47-70 | the first match after an append is the old first match, or the new member when there was none |
| Objects.Object.constructor | src/object.cc:11-14 | a default Object is empty |
| Objects.Object.OfList | include/jsoncc.h:210-213 | the initializer-list constructor keeps the members in the given order, duplicates included |
| Objects.Object.Copy | src/object.cc:21-24 | a copy holds the same member list |
| Objects.Object.Move | src/object.cc:26-29 | the new object takes the members and the source is left empty |
| Objects.Object.Assign | src/object.cc:31-37 | assignment copies the member list; self-assignment changes nothing |
| Objects.Object.MoveAssign | src/object.cc:39-45 | move assignment takes the members and leaves another source empty |
| Objects.Object.Append | src/object.cc:47-57 | `<<` appends at the end, keeping duplicates; earlier keys still look up as before |
| Objects.Object.Members | src/object.cc:59-62 | `members()` is the member list in insertion order |
| Objects.Object.Member | src/object.cc:64-70 | `member(k)` is the value of the first member with key k, INVALID when there is none |
| Objects.Object.Content | src/object.cc:59-62 | the OBJECT value holding those members |
| Factories.BuildSequence | include/jsoncc.h:270-284 | a vector or list becomes an ARRAY of its converted elements, in the container's order |
| Factories.MinExists | include/jsoncc.h:286-292 | a non-empty set of int64 has a least element |
| Factories.InOrder | include/jsoncc.h:286-292 | a set's iteration order: strictly increasing, with exactly the set's elements |
| Factories.BuildSet | include/jsoncc.h:286-292 | a set becomes an ARRAY of its converted elements in increasing order |
| Comparison.ValueEqIsIdentity | src/comparison.cc:89-119 | strict `==` holds if and only if the two values are identical: different tags are unequal, INVALID equals INVALID and numbers need the same type |
| Comparison.ElementsEqIsIdentity | src/comparison.cc:74-77 | array `==` is element-wise and order-sensitive |
| Comparison.MembersEqIsIdentity | src/comparison.cc:79-87 | object `==` compares member lists in order |
| Comparison.StrictImpliesEqual | src/comparison.cc:89-119 | strict `==` implies `Json::equal` for every pair of values |
| Comparison.StrictSeesOrder | src/comparison.cc:84-87 | two members in swapped order are not strictly equal, though `equal` accepts them |
| Equality.FirstEqual | src/equal.cc:77-91 | the first member from k on that is `equal` to m, or the length when none is |
| Equality.NormMembers | src/equal.cc:77-91 | the normal form of a member list has one entry per member |
| Equality.NormElements | src/equal.cc:56-70 | the normal form of an element list has one entry per element |
| Equality.NumberEqualIsIdentity | src/equal.cc:27-49 | numbers are `equal` exactly when type and payload agree, so int 1, uint 1 and fp 1 differ and two INVALID numbers are equal |
| Equality.NormMembersAppend | src/equal.cc:77-91 | the normal form of a concatenation is the concatenation of the normal forms |
| Equality.EqualIffNorm | src/equal.cc:93-123 | `equal` holds if and only if the two normal forms are the same, where objects become multisets of members |
| Equality.ArrayEqualIffNorm | src/equal.cc:56-70 | arrays are `equal` exactly when they have the same length and are pairwise `equal` in order |
| Equality.ElementsEqualIffNorm | src/equal.cc:56-70 | pairwise `equal` elements have the same normal forms, and conversely |
| Equality.MemberEqualIffNorm | src/equal.cc:72-75 | members are `equal` exactly when the keys are identical and the values `equal` |
| Equality.ObjectEqualIffNorm | src/equal.cc:77-91 | objects are `equal` exactly when one member list is a permutation of the other under `equal`, duplicates counted |
| Equality.IsPermutationIffNorm | src/equal.cc:77-91 | `is_permutation` under member `equal` holds exactly when the normal forms are the same multiset |
| Equality.MatchFound | src/equal.cc:77-91 | removing the matched members from both sides keeps the multiset comparison |
| Equality.NoMatch | src/equal.cc:77-91 | a member with no `equal` partner makes the multisets differ |
| Equality.FirstEqualIffNorm | src/equal.cc:77-91 | the search for an `equal` member finds the first member with the same normal form |
| Equality.EqualReflexive | src/equal.cc:93-123 | every value is `equal` to itself |
| Equality.EqualSymmetric | src/equal.cc:93-123 | `equal` is symmetric |
| Equality.EqualTransitive | src/equal.cc:93-123 | `equal` is transitive |
| Equality.ObjectOrderIgnored | src/equal.cc:77-91 | swapping two members keeps the objects `equal` |
| Equality.DuplicatesCount | src/equal.cc:77-91 | an object with a duplicated member is not `equal` to the one without |
| Output.HexLower | src/iostream.cc:93-109 | the hex digits written are lower-case and read back as their value |
| Output.Escape | src/iostream.cc:86-114 | a byte is copied unchanged if and only if it is above 1F and neither `"` nor `\`; otherwise it becomes a two- or six-byte escape; no output byte is a control byte |
| Output.ControlEscape | src/iostream.cc:94-109 | a control byte other than 08 09 0A 0C 0D becomes `\u00` followed by its two lower-case hex digits |
| Output.Escaped | src/iostream.cc:85-115 | the escaped body holds no raw control byte and is at least as long as the input |
| Output.EscapedAppend | src/iostream.cc:85-115 | escaping works byte by byte |
| Output.Quoted | src/iostream.cc:82-117 | the output begins and ends with `"`, the body between is the escaped string, and it holds no raw control byte |
| Output.Quote | src/iostream.cc:82-117 | the loop writes exactly the quoted string |
| Output.FilterAppend | src/iostream.cc:72-79 | filtering text in two pieces is filtering the whole, carrying the line-start flag across |
| Output.FilterLine | src/iostream.cc:72-79 | a piece without a newline gets the indent once, at its start, when a line starts there |
| Output.FilterNest | src/iostream.cc:72-79 | an indent filter inside another indents by both strings, so depth d gives d tabs |
| Output.Indent.constructor | src/iostream.cc:55-63 | a new filter has the given indent string, is at a line start and has received nothing |
| Output.Indent.Overflow | src/iostream.cc:72-79 | writes the indent before a character that starts a line and is not a newline, then the character; the line-start flag becomes "the character was a newline" |
| Output.Indent.Put | src/iostream.cc:72-79 | writing a string through the filter passes each of its bytes to `overflow` in turn, so the text received grows by exactly that string |
| Output.DigitsOf | src/iostream.cc:164-167 | the decimal digits of n: non-empty, only digits, no leading zero |
| Output.Decimal | src/iostream.cc:164-165 | an integer's decimal form starts with `-` exactly when it is negative |
| Output.JoinFromSnoc | src/iostream.cc:129-134 | adding one item adds the separator and the item |
| Output.JoinSnoc | src/iostream.cc:129-134 | items are joined by `,\n`, with no separator before the first |
| Output.RenderElements | src/iostream.cc:180-183 | one rendering per element, each the element's own rendering |
| Output.RenderMembers | src/iostream.cc:190-193 | one rendering per member, each the member's own rendering |
| Output.Print | src/iostream.cc:143-218 | `operator<<(Value)` writes `null`, `true`, `false`, the number, the quoted string, or the container layout, as `Render` states |
| Output.PrintMember | src/iostream.cc:185-188 | a Member prints as the quoted key, `": "`, then the value |
| Output.Items | src/iostream.cc:119-137 | one rendered item per element or member |
| Output.ContainerStep | src/iostream.cc:131-134 | each loop turn adds the separator (empty at first, then `,\n`) and the next item |
| Output.WriteItem | src/iostream.cc:132 | writing the separator and an item through the filter extends the joined text by that item |
| Output.PrintItem | src/iostream.cc:132 | the item written is the rendering of that element or member |
| Output.StreamItems | src/iostream.cc:127-135 | the loop's output is the joined items indented by one tab at each line start |
| Output.StreamContainer | src/iostream.cc:119-137 | an empty container prints as `[]` or `{}`; a non-empty one as open delimiter, newline, the indented items joined by `,\n`, newline, close delimiter |
| RoundTrips.DecodeCons | src/token-stream.cc:239-272 | the string machine over a byte followed by more is one step then the rest |
| RoundTrips.StepIsUScan | src/token-stream.cc:257-258 | in unicode mode a step is a `uescape::scan` |
| RoundTrips.DecodeFour | src/token-stream.cc:190-210 | four hex digits consumed one by one continue with the encoded code point |
| RoundTrips.DecodeHex | src/token-stream.cc:190-233 | `\u` with four hex digits decodes to the UTF-8 encoding of their value |
| RoundTrips.DecodePlain | src/iostream.cc:112-113 | a byte `quote` copies verbatim is decoded back to itself |
| RoundTrips.DecodeShort | src/iostream.cc:98-110 | a two-byte escape written by `quote` decodes back to its byte |
| RoundTrips.DecodeControl | src/iostream.cc:94-109 | a `\u00xx` escape written by `quote` decodes back to its control byte |
| RoundTrips.DecodeEscape | src/iostream.cc:86-114 | every non-NUL byte's escape decodes back to that byte |
| RoundTrips.QuoteDecodes | src/iostream.cc:82-117 | the string machine over the escaped body and the closing quote gives back the original string and stops right after the quote |
| RoundTrips.QuotedDecodes | src/iostream.cc:82-117 | for any string without NUL, the lexer's string decoder applied to the body of `quote(s)` returns s |
| RoundTrips.DigitsOfValue | src/iostream.cc:164-167 | the decimal digits of n read back as n |
| RoundTrips.DecimalLexes | src/iostream.cc:164-165 | a printed integer is a number literal the table accepts |
| RoundTrips.DecimalReadsBack | src/iostream.cc:164-165 | `make_int` reads a printed int64 back as the same number |

## Left out

- Floating point. `make_float`/`strtold` (src/token-stream.cc:288-301) is a parameter `bytes -> Option<Float>`. `std::fixed` printing (src/iostream.cc:168-169) is a parameter `Float -> bytes`. The FP payload is an opaque type whose equality is Dafny's, so IEEE NaN inequality is not modelled.
- `float`, `double` and `long double` constructors and factories are folded into one `FromFp`/`BuildFp` over the `long double` value, because the conversions between them belong to the FP layer above.
- Locale handling (src/auto-locale.cc): it swaps a thread-local POSIX locale, which is foreign state.
- The document parser (src/parser.cc, src/parser-impl.cc): it only builds the stream and the lexer, and its non-throwing `parse` returns `Value()`.
- src/error.cc (the message table) and src/string.cc (a wrapper, modelled as a byte sequence).
- The generic `ValueFactory<T>` that converts through a user `operator<<` and a string stream (include/jsoncc.h:294-300): it relies on user code.
- The `rdbuf` swapping of `indent`'s constructor and destructor, and the `indent(streambuf*)` constructor (src/iostream.cc:48-70). The ostream is the sequence of bytes written to it. Integer formatting by the ostream is modelled as `Decimal` and `DigitsOf`.
- Manual memory in tagged-type.cc: `new`/`delete`/`memset` and the shared Null/True/False singletons are a plain payload datatype. Deep copy is value copy, so aliasing between payloads cannot occur in the model.
- Number copy, move and assignment (src/number.cc:17-27, 117-133): `Json.Number` is a value, so copying and assigning copies both type and payload by construction. Self-assignment is the identity.
- NumberScanner.MakeInt: its own contract only says a non-empty success needs a digit, because its value is proved by `RoundTrips.DecimalReadsBack` for printed integers rather than for every input.
- The typed accessors `uint_value`, `int_value` and `fp_value` (src/number.cc:140-156) are `Json.Number.UintValue`, `IntValue` and `FpValue`, with the matching type as their precondition. They have no `ensures` of their own.
- Value's move constructor and the Member move constructor: these are modelled as copies, because a moved-from Value or Member is not read again in the source.
- Factories.BuildSet: only for `std::set<int64_t>`, whose iteration order is increasing. Other element types need their own `operator<`.
- Output.Print: nested indentation is stated through `Filter` and `FilterNest` rather than through a stack of live filter objects.
- Output.Print: a Value with tag INVALID, or a Number with TYPE_INVALID, is excluded by `Printable`, because the source `assert`s on it (src/iostream.cc:161-162, 198-199).
- LexerProperties: the scenario lemmas assume the bytes they read are free of NUL and valid UTF-8 (`Clean`). Streams that throw mid-token are covered by `GetcSpec`, `StringLoopStep` and `NumberLoopThrows`, not by a whole-scan lemma.
- LexerProperties: floating-point literals are covered up to the call of the float conversion parameter. The whole-scan lemmas are stated for integers.
- The token printing `operator<<` of src/token-stream.cc:30-49: it is debugging output excluded from coverage.
- The source is followed where tests/test-utf8stream.cc disagrees with it. `state()` on a fresh stream is SGOOD, not SEOF (test line 42). `ungetc` after EOF does nothing (test lines 56-61 and 87-89), as src/utf8stream.cc:66-71 is written.
- The source's quirks are kept:
  - `e`/`E` is accepted directly after `.`;
  - a buffer that ends inside a multi-byte sequence gives SEOF, not UTF8_INVALID;
  - after a string error state, the loop reads one more byte before it resets the token.
- The token header lacks `reset`, `str_value`, `number_type` and `int_value` (src/token-stream.h:10-64). The `Token` datatype follows their use in src/token-stream.cc.

## Findings

| source | as written | input that shows it | evidently intended | confidence | as-written member | corrected member |
|---|---|---|---|---|---|---|
| src/token-stream.h:18 | `BEGIN_OBJECT = '}'`, the same code as `END_OBJECT`; `select_scanner` then casts the lead byte to `Token::Type` (src/token-stream.cc:115) | lead byte `{`: no enumerator has its code, and `}` names two | `BEGIN_OBJECT = '{'`, so every structural byte names exactly one kind | not executed | Tokens.HeaderBeginObjectCollides | Tokens.CodeInjective |
