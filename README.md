# JSON character tokenizer of `harvensine`, in Dafny

This project models the hand-written JSON tokenizer of `src/json/tokenizer.rs`
and proves what it does, character by character:

- `read_one_char` reads one byte from the reader into a zero-filled one-byte
  buffer and returns it as the char with that code point. At the end of the
  input the read copies nothing, so the char is NUL. This is not an error.
- `tokenized` skips leading space chars (only `' '`), then dispatches on the
  first other char. `n`, `t` and `f` read a zero-filled buffer of 3, 3 or 4
  bytes and accept it only if it is exactly `ull`, `rue` or `alse`. Any other
  char is `Invalid`. The quote arm is `todo!()`.
- `read_and_tokenized_char` decodes one char of a string literal. A quote
  gives the `EndOfString` sentinel. A char other than the backslash comes back
  unchanged. A backslash is followed by one of `" \ / n f r t`, or by `u` and
  a group of four bytes that goes through `from_utf8`, `u32::from_str_radix(_, 16)`
  and `char::from_u32`. Every failure, an unknown escape included, is `Invalid`.

Layout:

- `rust_core.dfy` (module `RustCore`): the Rust library operations the
  tokenizer calls. `u8 as char`, `from_utf8` as a UTF-8 validity predicate
  (Table 3-7 of the Unicode Standard), `u32::from_str_radix` for radix 16
  (a leading `+` is accepted, as the library does), and `char::from_u32`.
- `cursor.dfy` (module `Io`): the byte source, a class `Cursor` holding the
  input and a read position, as `std::io::Cursor` over an in-memory input.
  `Read` copies as many bytes as fit into the caller's buffer and leaves the
  rest of the buffer untouched. A `BufReader` around such a cursor behaves
  the same only while the input fits in its internal buffer (see below).
- `tokenizer.dfy` (module `Tokenizer`): `JsonValue`, `TokenizedError`, and two
  layers. The first is the specification: functions of the unread input that
  give what each read returns and how many bytes it takes. The second is the
  imperative tokenizer: `ReadOneChar`, `Tokenized` (with its space-skipping
  loop) and `ReadAndTokenizedChar`. These methods move a cursor and fill array
  buffers in place, and each is proved against its specification function.
- `tokenizer_properties.dfy` (module `TokenizerProperties`): lemmas about the
  specification. They cover leading-space skipping, an exact description of
  what `tokenized` returns, the literal arms (zero padding included), the
  escape table, the `\u` path, and consecutive reads.
- `tokenizer_tests.dfy` (module `TokenizerTests`): the unit tests of
  `src/json/tokenizer.rs` written as client methods of the imperative
  tokenizer, one method per test and one per case of the escape table.

The code has a single `Invalid` error, reads zeros past the end of the
input, and produces only the three literals.

## Model

| member | source | states |
|---|---|---|
| `RustCore.CharOf` | src/json/tokenizer.rs:35 | `b as char` is the char whose code point is the byte's value |
| `RustCore.ValidUtf8` | src/json/tokenizer.rs:114-116 | `from_utf8` (also at lines 57, 67 and 77) accepts a byte string only if it is well-formed UTF-8: a valid string never starts with a continuation byte, `C0`, `C1` or a byte above `F4`, and a multi-byte sequence always has a continuation byte after its lead |
| `RustCore.AsciiIsValidUtf8` | src/json/tokenizer.rs:57 | every ASCII byte string passes `from_utf8` |
| `RustCore.Utf8LiteralComparisonIsByteEquality` | src/json/tokenizer.rs:57-59 | comparing `from_utf8(buf)` with an ASCII literal succeeds exactly when the bytes are equal |
| `RustCore.HexDigit` | src/json/tokenizer.rs:117 | `to_digit(16)` as `from_str_radix` applies it: a digit value is below 16 |
| `RustCore.HexDigitSpelling` | src/json/tokenizer.rs:117 | a byte is a hex digit of value `v` exactly when it spells `v` in lower case or in upper case |
| `RustCore.AccumulateDigits` | src/json/tokenizer.rs:117 | the digit loop of `from_str_radix` succeeds exactly when every byte is a hex digit, and then yields the positional base-16 value |
| `RustCore.FromStrRadix16` | src/json/tokenizer.rs:117-119 | `u32::from_str_radix(_, 16)` succeeds exactly on a non-empty run of hex digits, optionally after one `+`; its value is the hex value of the digits and fits the digit count |
| `RustCore.FromU32` | src/json/tokenizer.rs:120-122 | `char::from_u32(v)` gives a char exactly when `v` is below U+110000 and not a surrogate, and that char has code point `v` |
| `Io.Cursor.constructor` | src/json/tokenizer.rs:137-140 | a reader over the whole input, positioned at its start |
| `Io.Cursor.Read` | src/json/tokenizer.rs:53-56 | `read` copies `min(buffer length, remaining)` bytes into the buffer front, advances by that many, leaves the rest of the buffer as it was |
| `Tokenizer.CharAt` | src/json/tokenizer.rs:31-35 | the char `read_one_char` yields: the byte as a char below U+0100, or NUL past the end; NUL is returned exactly at the end of the input or for a zero byte, and the two cannot be told apart |
| `Tokenizer.ReadBuf` | src/json/tokenizer.rs:110-113 | a `k`-byte zeroed buffer after one read holds the available bytes, then zeros |
| `Tokenizer.SkipSpaces` | src/json/tokenizer.rs:42-49 | the count of leading `' '` chars: all before it are spaces, the byte at it (if any) is not |
| `Tokenizer.MatchLiteral` | src/json/tokenizer.rs:52-60 | a literal arm takes `min(len, remaining)` bytes and gives the value or `Invalid`; it accepts only a valid UTF-8 literal that agrees with the bytes read, and a literal holding no zero byte only when all of it was read |
| `Tokenizer.Dispatch` | src/json/tokenizer.rs:51-86 | the match on the first significant char: only `n`, `t` and `f` can succeed, each with its own value; any other char is `Invalid` without reading more; it never reads past the input and never returns `EndOfString` |
| `Tokenizer.Tokenize` | src/json/tokenizer.rs:38-87 | `tokenized` never reads past the input, never returns `EndOfString`, and produces only `NullValue`, `TrueValue` or `FalseValue` |
| `Tokenizer.Escaped` | src/json/tokenizer.rs:101-108 | exactly the seven specifiers `" \ / n f r t` have a meaning; `" \ /` stand for themselves, `n f r t` for control chars below U+0020 (which ones, U+000A, U+000C, U+000D and U+0009, is stated by `TwoCharEscapes`) |
| `Tokenizer.DecodeHexEscape` | src/json/tokenizer.rs:114-123 | the `\u` group decodes only to a char below U+10000 that is not a surrogate, and never to `EndOfString` |
| `Tokenizer.ReadStringChar` | src/json/tokenizer.rs:89-127 | `read_and_tokenized_char` takes at most 6 bytes, never more than remain, and at least one if any remain |
| `Tokenizer.ReadOneChar` | src/json/tokenizer.rs:27-36 | returns the next byte as a char, or NUL at the end, and advances by one byte unless at the end |
| `Tokenizer.ReadLiteral` | src/json/tokenizer.rs:52-60 | a literal arm returns and consumes what `MatchLiteral` gives for the unread input |
| `Tokenizer.Tokenized` | src/json/tokenizer.rs:38-87 | the space loop and dispatch return `Tokenize(unread input).out` and advance by its byte count |
| `Tokenizer.ReadAndTokenizedChar` | src/json/tokenizer.rs:89-127 | returns `ReadStringChar(unread input).out` and advances by its byte count |
| `TokenizerProperties.SkipSpacesUnique` | src/json/tokenizer.rs:42-49 | the first non-space position is determined uniquely by its defining properties |
| `TokenizerProperties.LiteralArm` | src/json/tokenizer.rs:52-60 | a literal arm gives the value exactly when the next bytes are the literal; a short input fails because of the zero padding; it takes `min(len, remaining)` bytes |
| `TokenizerProperties.TokenizeOutcome` | src/json/tokenizer.rs:51-86 | after the spaces, `null`/`true`/`false` give their values and leave the reader just past the literal; every other input is `Invalid` |
| `TokenizerProperties.OtherLeadingCharInvalid` | src/json/tokenizer.rs:85 | any first significant char but `n`, `t`, `f` (NUL at the end included) is `Invalid` after reading only that char |
| `TokenizerProperties.LeadingSpacesSkipped` | src/json/tokenizer.rs:42-49 | `n` spaces before any input change nothing but the byte count, which grows by `n` |
| `TokenizerProperties.SkipSpacesAfterSpaces` | src/json/tokenizer.rs:42-49 | `n` spaces in front of an input add exactly `n` to the count of leading spaces |
| `TokenizerProperties.LiteralExamples` | src/json/tokenizer.rs:142-172 | `null`, `true`, `false` give `NullValue`, `TrueValue`, `FalseValue` |
| `TokenizerProperties.SpacedNullExample` | src/json/tokenizer.rs:151-156 | `   null` gives `NullValue` |
| `TokenizerProperties.NonLiteralExamples` | src/json/tokenizer.rs:175-180 | `nxll`, the cut-off `nu` and the empty input are `Invalid` |
| `TokenizerProperties.QuoteEndsString` | src/json/tokenizer.rs:94-96 | a quote yields `EndOfString` after exactly one byte |
| `TokenizerProperties.PlainCharUnchanged` | src/json/tokenizer.rs:97-99 | a char other than quote and backslash comes back unchanged after one byte |
| `TokenizerProperties.EndOfInputYieldsNul` | src/json/tokenizer.rs:31-35 | at the end of the input the decoder yields NUL and reads nothing |
| `TokenizerProperties.LoneBackslashInvalid` | src/json/tokenizer.rs:100-125 | a backslash at the end of the input reads NUL as its specifier, which is no escape: `Invalid`, after one byte |
| `TokenizerProperties.PlainCharsInOrder` | src/json/tokenizer.rs:192-198 | consecutive calls over plain chars return those chars in order |
| `TokenizerProperties.TwoCharEscapes` | src/json/tokenizer.rs:101-108 | each of the seven two-char escapes decodes to its char and takes two bytes |
| `TokenizerProperties.UnknownEscapeInvalid` | src/json/tokenizer.rs:125 | any other specifier than `" \ / n f r t u` is `Invalid` after two bytes |
| `TokenizerProperties.HexEscapeUtf8CheckRedundant` | src/json/tokenizer.rs:114-119 | whenever `from_utf8` rejects the group, `from_str_radix` would have rejected it too |
| `TokenizerProperties.HexEscapeReadsGroup` | src/json/tokenizer.rs:109-124 | `\u` followed by four bytes takes six bytes and decodes those four bytes |
| `TokenizerProperties.UnicodeEscape` | src/json/tokenizer.rs:109-124 | `\u` and four hex digits take six bytes and give the char of that code point, or `Invalid` for a surrogate |
| `TokenizerProperties.UnicodeEscapeRejectsNonHex` | src/json/tokenizer.rs:117-119 | a group that is neither four hex digits nor `+` and three is `Invalid`, after six bytes |
| `TokenizerProperties.UnicodeEscapeAcceptsPlus` | src/json/tokenizer.rs:117 | `\u+` and three hex digits is accepted as that code point |
| `TokenizerProperties.TruncatedUnicodeEscapeInvalid` | src/json/tokenizer.rs:110-119 | a group cut short by the end of the input is `Invalid` |
| `TokenizerProperties.EndOfStringExample` | src/json/tokenizer.rs:201-206 | a lone `"` gives `EndOfString` after one byte |
| `TokenizerProperties.UnicodeEscapeExample` | src/json/tokenizer.rs:223-229 | `\u004Dx` gives `M` after six bytes, so the next call reads `x` |
| `TokenizerProperties.InvalidEscapeExample` | src/json/tokenizer.rs:232-237 | `\x` is `Invalid` |

## Left out

- The quote arm of `tokenized` is `todo!()` and panics. `Tokenize` and `Tokenized` require that the first significant char is not a quote, and the arm of the method is proved unreachable.
- The `Err` branch of `reader.read` (an I/O error from the underlying stream) is foreign I/O and is not modelled. As a result `ReadOneChar` returns the char itself where `read_one_char` returns a `Result` that is always `Ok` here.
- The reader is generic over `BufRead`. The model fixes it to `std::io::Cursor` over an in-memory input, whose `read` always fills the buffer as far as input remains. The tests wrap that cursor in a `BufReader`, which behaves the same while the input fits in its internal buffer (8 KiB by default). Readers that return short reads are not modelled.
- `BufReader` short reads at its buffer boundary are not modelled. `BufReader::read` serves a request from what it has buffered and does not refill while bytes remain, so a 3- or 4-byte literal read that crosses the boundary comes back short. With 8190 spaces and then `null`, the program reads only `u` into the 3-byte buffer and returns `Invalid`, where the model returns `NullValue`. The source calls `read` and not `read_exact` at lines 54, 64, 74 and 111, so its results depend on how the reader chunks the input; the model gives the results of a reader that never reads short.
- `FromStrRadix16`: requires at most eight bytes. At most eight hex digits fit in a `u32`, so the library's overflow check can never fire; it is left out. The tokenizer passes four bytes.
- `JsonSign` is unused. `JsonValue::Object`, `Array` and `Number` have no payload and are never produced, and no number, array, object or string-value parsing exists in the code. None of this is modelled beyond the declarations.
- `src/repetition/` (timing via mach FFI, busy-wait over `gettimeofday`, a file-read benchmark), `src/generator/mod.rs` (random numbers, floating point, serialisation, file output), `src/calc.rs` (floating-point haversine) and `src/main.rs` (process entry) are outside the tokenizer and not part of this model.
