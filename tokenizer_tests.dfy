/** The tokenizer's unit tests, as clients of the methods: each builds a
  * cursor over the test's input and proves the outcome the test expects. */
module TokenizerTests {
  import opened RustCore
  import opened Io
  import opened Tokenizer
  import opened TokenizerProperties

  method TokenizedNull() {
    LiteralExamples();
    LiteralsSplit();
    assert SkipSpaces(NULL) == 0;
    var reader := new Cursor(NULL);
    var r := Tokenized(reader);
    assert r == Ok(NullValue);
  }

  method TokenizedWithSpacesNull() {
    SpacedNullExample();
    var input := Bytes("   null");
    var reader := new Cursor(input);
    assert reader.Remaining() == input;
    var r := Tokenized(reader);
    assert r == Ok(NullValue);
  }

  method TokenizedTrue() {
    LiteralExamples();
    LiteralsSplit();
    assert SkipSpaces(TRUE) == 0;
    var reader := new Cursor(TRUE);
    var r := Tokenized(reader);
    assert r == Ok(TrueValue);
  }

  method TokenizedFalse() {
    LiteralExamples();
    LiteralsSplit();
    assert SkipSpaces(FALSE) == 0;
    var reader := new Cursor(FALSE);
    var r := Tokenized(reader);
    assert r == Ok(FalseValue);
  }

  method TokenizedErr() {
    NonLiteralExamples();
    var reader := new Cursor(Bytes("nxll"));
    var r := Tokenized(reader);
    assert r == Err(Invalid);
  }

  method TokenizedCharNormalChar() {
    // the bytes of "multiple_char"
    var tail := Bytes("ultiple_char");
    var input := Bytes("m") + tail;
    assert CharOf(input[0]) == 'm' && CharOf(tail[0]) == 'u';
    PlainCharUnchanged(input);
    PlainCharUnchanged(tail);
    var reader := new Cursor(input);
    var c := ReadAndTokenizedChar(reader);
    assert c == Ok('m');
    assert reader.Remaining() == tail;
    c := ReadAndTokenizedChar(reader);
    assert c == Ok('u');
  }

  method TokenizedCharEndOfString() {
    EndOfStringExample();
    var reader := new Cursor(Bytes("\""));
    var c := ReadAndTokenizedChar(reader);
    assert c == Err(EndOfString);
  }

  /** The seven cases of the escape-table test: the escape decodes to its char
    * and the next call reads the `s` after it. */
  method TokenizedCharEscapedQuote() {
    var rest := Bytes("something");
    assert CharOf(rest[0]) == 's';
    TwoCharEscapes(rest);
    PlainCharUnchanged(rest);
    var reader := new Cursor(Bytes("\\\"") + rest);
    var c := ReadAndTokenizedChar(reader);
    assert c == Ok('"');
    assert reader.Remaining() == rest;
    c := ReadAndTokenizedChar(reader);
    assert c == Ok('s');
  }

  method TokenizedCharEscapedSlash() {
    var rest := Bytes("something");
    assert CharOf(rest[0]) == 's';
    TwoCharEscapes(rest);
    PlainCharUnchanged(rest);
    var reader := new Cursor(Bytes("\\/") + rest);
    var c := ReadAndTokenizedChar(reader);
    assert c == Ok('/');
    assert reader.Remaining() == rest;
    c := ReadAndTokenizedChar(reader);
    assert c == Ok('s');
  }

  method TokenizedCharEscapedBackslash() {
    var rest := Bytes("something");
    assert CharOf(rest[0]) == 's';
    TwoCharEscapes(rest);
    PlainCharUnchanged(rest);
    var reader := new Cursor(Bytes("\\\\") + rest);
    var c := ReadAndTokenizedChar(reader);
    assert c == Ok('\\');
    assert reader.Remaining() == rest;
    c := ReadAndTokenizedChar(reader);
    assert c == Ok('s');
  }

  method TokenizedCharEscapedFormFeed() {
    var rest := Bytes("something");
    assert CharOf(rest[0]) == 's';
    TwoCharEscapes(rest);
    PlainCharUnchanged(rest);
    var reader := new Cursor(Bytes("\\f") + rest);
    var c := ReadAndTokenizedChar(reader);
    assert c == Ok('\U{000C}');
    assert reader.Remaining() == rest;
    c := ReadAndTokenizedChar(reader);
    assert c == Ok('s');
  }

  method TokenizedCharEscapedNewline() {
    var rest := Bytes("something");
    assert CharOf(rest[0]) == 's';
    TwoCharEscapes(rest);
    PlainCharUnchanged(rest);
    var reader := new Cursor(Bytes("\\n") + rest);
    var c := ReadAndTokenizedChar(reader);
    assert c == Ok('\n');
    assert reader.Remaining() == rest;
    c := ReadAndTokenizedChar(reader);
    assert c == Ok('s');
  }

  method TokenizedCharEscapedCarriageReturn() {
    var rest := Bytes("something");
    assert CharOf(rest[0]) == 's';
    TwoCharEscapes(rest);
    PlainCharUnchanged(rest);
    var reader := new Cursor(Bytes("\\r") + rest);
    var c := ReadAndTokenizedChar(reader);
    assert c == Ok('\r');
    assert reader.Remaining() == rest;
    c := ReadAndTokenizedChar(reader);
    assert c == Ok('s');
  }

  method TokenizedCharEscapedTab() {
    var rest := Bytes("something");
    assert CharOf(rest[0]) == 's';
    TwoCharEscapes(rest);
    PlainCharUnchanged(rest);
    var reader := new Cursor(Bytes("\\t") + rest);
    var c := ReadAndTokenizedChar(reader);
    assert c == Ok('\t');
    assert reader.Remaining() == rest;
    c := ReadAndTokenizedChar(reader);
    assert c == Ok('s');
  }

  method TokenizedUnicodeChar() {
    UnicodeEscapeExample();
    var x := Bytes("x");
    assert CharOf(x[0]) == 'x';
    PlainCharUnchanged(x);
    var reader := new Cursor(Bytes("\\u004Dx"));
    var c := ReadAndTokenizedChar(reader);
    assert c == Ok('M');
    assert reader.Remaining() == x;
    c := ReadAndTokenizedChar(reader);
    assert c == Ok('x');
  }

  method TokenizedInvalidEscaped() {
    InvalidEscapeExample();
    var reader := new Cursor(Bytes("\\x"));
    var c := ReadAndTokenizedChar(reader);
    assert c == Err(Invalid);
  }
}
