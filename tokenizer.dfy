/** The JSON character tokenizer: `read_one_char`, `tokenized` and
  * `read_and_tokenized_char`, each reading from a `Cursor` and advancing it.
  *
  * Every read is specified by a function of the still unread input that gives
  * what the read returns and how many bytes it takes; the methods are proved
  * against those functions, and TokenizerProperties proves what the functions
  * promise. */
module Tokenizer {
  import opened RustCore
  import opened Io

  /** The values of JSON. Only the three literals are ever produced; `Object`,
    * `Array` and `Number` carry no payload in the source. */
  datatype JsonValue =
    | Object
    | Array
    | String(s: string)
    | Number
    | TrueValue
    | FalseValue
    | NullValue

  /** `EndOfString` is not a failure: it tells a string loop that the closing
    * quote was read. Every real failure is `Invalid`. */
  datatype TokenizedError = Invalid | EndOfString

  datatype Result<T> = Ok(value: T) | Err(error: TokenizedError)

  /** What a read returns, and how many input bytes it took. */
  datatype Step<T> = Step(out: T, consumed: nat)

  /** The rest of each literal after the char that selects it. */
  const ULL: seq<byte> := Bytes("ull")
  const RUE: seq<byte> := Bytes("rue")
  const ALSE: seq<byte> := Bytes("alse")

  // ---------------------------------------------------------------------------
  // Specification, as functions of the unread input
  // ---------------------------------------------------------------------------

  /** The char `read_one_char` yields at offset `i` of `rest`: the byte there, or
    * NUL past the end, where the one-byte buffer stays as it was zero-filled.
    * The char is always below U+0100, and NUL cannot tell the end of the
    * input from a zero byte in it. */
  function CharAt(rest: seq<byte>, i: nat): (c: char)
    ensures c as int < 0x100
    ensures i < |rest| ==> c as int == rest[i] as int
    ensures c == '\0' <==> i >= |rest| || rest[i] == 0
  {
    if i < |rest| then CharOf(rest[i]) else '\0'
  }

  /** The `k`-byte buffer `[0; k]` after one `read` from `rest`: the bytes that
    * were available, then the zeros it was filled with. */
  function ReadBuf(rest: seq<byte>, k: nat): (buf: seq<byte>)
    ensures |buf| == k
    ensures forall i :: 0 <= i < k ==> buf[i] == if i < |rest| then rest[i] else 0
  {
    rest[..Min(k, |rest|)] + seq(k - Min(k, |rest|), _ => 0)
  }

  /** The number of leading space chars of `rest`. Only `' '` counts: tab,
    * newline and carriage return are not skipped. */
  function SkipSpaces(rest: seq<byte>): (q: nat)
    ensures q <= |rest|
    ensures forall i :: 0 <= i < q ==> CharOf(rest[i]) == ' '
    ensures q < |rest| ==> CharOf(rest[q]) != ' '
  {
    if rest != [] && CharOf(rest[0]) == ' ' then 1 + SkipSpaces(rest[1..]) else 0
  }

  /** The char `tokenized` dispatches on. */
  function FirstSignificant(rest: seq<byte>): char {
    CharAt(rest, SkipSpaces(rest))
  }

  /** One literal arm: read `|lit|` bytes into a zeroed buffer and accept the
    * value when the buffer is valid UTF-8 and equal to `lit`. Only a valid
    * literal that agrees with the bytes read is ever accepted, and a literal
    * holding no zero byte only when all of it was read. */
  function MatchLiteral(rest: seq<byte>, lit: seq<byte>, value: JsonValue): (r: Step<Result<JsonValue>>)
    ensures r.consumed == Min(|lit|, |rest|)
    ensures r.out == Ok(value) || r.out == Err(Invalid)
    ensures r.out.Ok? ==> ValidUtf8(lit) && rest[..r.consumed] == lit[..r.consumed]
    ensures r.out.Ok? && 0 !in lit ==> r.consumed == |lit|
  {
    var buf := ReadBuf(rest, |lit|);
    var n := Min(|lit|, |rest|);
    assert n < |lit| ==> buf[n] == 0;
    Step(if ValidUtf8(buf) && buf == lit then Ok(value) else Err(Invalid), n)
  }

  /** The arm of `tokenized` selected by its first significant char `c`,
    * reading from `tail`, the input after `c`. */
  function Dispatch(c: char, tail: seq<byte>): (r: Step<Result<JsonValue>>)
    requires c != '"'
    ensures r.consumed <= |tail|
    ensures r.out.Ok? ==> c in {'n', 't', 'f'}
    ensures c == 'n' && r.out.Ok? ==> r.out.value == NullValue
    ensures c == 't' && r.out.Ok? ==> r.out.value == TrueValue
    ensures c == 'f' && r.out.Ok? ==> r.out.value == FalseValue
    ensures c !in {'n', 't', 'f'} ==> r == Step(Err(Invalid), 0)
    ensures r.out != Err(EndOfString)
  {
    match c
    case 'n' => MatchLiteral(tail, ULL, NullValue)
    case 't' => MatchLiteral(tail, RUE, TrueValue)
    case 'f' => MatchLiteral(tail, ALSE, FalseValue)
    case _ => Step(Err(Invalid), 0)
  }

  /** `tokenized(reader)` on a reader whose unread input is `rest`. The quote
    * arm is `todo!()` in the source, so inputs that reach it are excluded. */
  function Tokenize(rest: seq<byte>): (r: Step<Result<JsonValue>>)
    requires FirstSignificant(rest) != '"'
    ensures r.consumed <= |rest|
    ensures r.out != Err(EndOfString)
    ensures r.out.Ok? ==> r.out.value in {NullValue, TrueValue, FalseValue}
  {
    var q := SkipSpaces(rest);
    var after := Min(q + 1, |rest|);
    var arm := Dispatch(CharAt(rest, q), rest[after..]);
    Step(arm.out, after + arm.consumed)
  }

  /** The two-character escapes `\"`, `\\`, `\/`, `\n`, `\f`, `\r` and `\t`:
    * what each specifier stands for. The three punctuation specifiers stand
    * for themselves, the four letters for control chars. `u` is handled
    * apart; anything else has no meaning. */
  function Escaped(specifier: char): (e: Option<char>)
    ensures e.Some? <==> specifier in {'"', '\\', '/', 'n', 'f', 'r', 't'}
    ensures specifier in {'"', '\\', '/'} ==> e == Some(specifier)
    ensures specifier in {'n', 'f', 'r', 't'} ==> e.Some? && e.value < ' '
  {
    match specifier
    case '"' => Some('"')
    case '\\' => Some('\\')
    case '/' => Some('/')
    case 'n' => Some('\n')
    case 'f' => Some('\U{000C}')
    case 'r' => Some('\r')
    case 't' => Some('\t')
    case _ => None
  }

  /** The four bytes after `\u`: `from_utf8`, then `u32::from_str_radix(_, 16)`,
    * then `char::from_u32`; a failure at any stage is `Invalid`. */
  function DecodeHexEscape(buf: seq<byte>): (r: Result<char>)
    requires |buf| == 4
    ensures r != Err(EndOfString)
    ensures r.Ok? ==> r.value as int < 0x1_0000 && !IsSurrogate(r.value as int)
  {
    if !ValidUtf8(buf) then Err(Invalid)
    else
      match FromStrRadix16(buf)
      case None => Err(Invalid)
      case Some(v) =>
        assert Pow16(4) == 0x1_0000;
        match FromU32(v)
        case None => Err(Invalid)
        case Some(c) => Ok(c)
  }

  /** `read_and_tokenized_char(reader)` on a reader whose unread input is `rest`. */
  function ReadStringChar(rest: seq<byte>): (r: Step<Result<char>>)
    ensures r.consumed <= |rest| && r.consumed <= 6
    ensures rest != [] ==> 1 <= r.consumed
  {
    var c := CharAt(rest, 0);
    var afterC := Min(1, |rest|);
    if c == '"' then Step(Err(EndOfString), afterC)
    else if c != '\\' then Step(Ok(c), afterC)
    else
      var specifier := CharAt(rest, 1);
      var afterSpecifier := Min(2, |rest|);
      if specifier == 'u' then
        var tail := rest[2..];
        Step(DecodeHexEscape(ReadBuf(tail, 4)), 2 + Min(4, |tail|))
      else
        match Escaped(specifier)
        case Some(e) => Step(Ok(e), afterSpecifier)
        case None => Step(Err(Invalid), afterSpecifier)
  }

  // ---------------------------------------------------------------------------
  // The tokenizer, reading from a cursor
  // ---------------------------------------------------------------------------

  /** `read_one_char`: read one byte into a zeroed one-byte buffer and return it
    * as a char; at the end of the input the buffer stays zero and the char is
    * NUL. */
  method ReadOneChar(reader: Cursor) returns (c: char)
    requires reader.Valid()
    modifies reader
    ensures reader.Valid()
    ensures c == CharAt(old(reader.Remaining()), 0)
    ensures reader.pos == old(reader.pos) + Min(1, |old(reader.Remaining())|)
  {
    var buffer := new byte[1](_ => 0);
    var n := reader.Read(buffer);
    c := CharOf(buffer[0]);
  }

  /** One literal arm of `tokenized`: fill a zeroed buffer of `|lit|` bytes
    * from the reader and compare it, as text, with `lit`. */
  method ReadLiteral(reader: Cursor, lit: seq<byte>, value: JsonValue) returns (r: Result<JsonValue>)
    requires reader.Valid()
    modifies reader
    ensures reader.Valid()
    ensures var s := MatchLiteral(old(reader.Remaining()), lit, value);
      r == s.out && reader.pos == old(reader.pos) + s.consumed
  {
    ghost var rest := reader.Remaining();
    var buf := new byte[|lit|](_ => 0);
    var n := reader.Read(buf);
    assert buf[..] == ReadBuf(rest, |lit|) by {
      assert buf[..] == buf[..n] + buf[n..];
    }
    if ValidUtf8(buf[..]) && buf[..] == lit {
      r := Ok(value);
    } else {
      r := Err(Invalid);
    }
  }

  /** `tokenized`: skip the spaces, then dispatch on the first other char. */
  method Tokenized(reader: Cursor) returns (r: Result<JsonValue>)
    requires reader.Valid()
    requires FirstSignificant(reader.Remaining()) != '"'
    modifies reader
    ensures reader.Valid()
    ensures var s := Tokenize(old(reader.Remaining()));
      r == s.out && reader.pos == old(reader.pos) + s.consumed
  {
    ghost var rest := reader.Remaining();
    ghost var start := reader.pos;
    var c := ReadOneChar(reader);
    ghost var p := 0;
    while c == ' '
      invariant reader.Valid()
      invariant p <= SkipSpaces(rest)
      invariant c == CharAt(rest, p)
      invariant reader.pos == start + Min(p + 1, |rest|)
      decreases |rest| - p
    {
      assert reader.Remaining() == rest[p + 1..];
      c := ReadOneChar(reader);
      p := p + 1;
    }
    assert p == SkipSpaces(rest);
    assert reader.Remaining() == rest[Min(p + 1, |rest|)..];
    match c
    case 'n' => r := ReadLiteral(reader, ULL, NullValue);
    case 't' => r := ReadLiteral(reader, RUE, TrueValue);
    case 'f' => r := ReadLiteral(reader, ALSE, FalseValue);
    case '"' => assert false; // `todo!()` in the source; excluded by the precondition
    case _ => r := Err(Invalid);
  }

  /** `read_and_tokenized_char`: one logical char of a string literal. */
  method ReadAndTokenizedChar(reader: Cursor) returns (r: Result<char>)
    requires reader.Valid()
    modifies reader
    ensures reader.Valid()
    ensures var s := ReadStringChar(old(reader.Remaining()));
      r == s.out && reader.pos == old(reader.pos) + s.consumed
  {
    ghost var rest := reader.Remaining();
    var c := ReadOneChar(reader);
    if c == '"' {
      return Err(EndOfString);
    }
    if c != '\\' {
      return Ok(c);
    }
    assert reader.Remaining() == rest[1..];
    var specifier := ReadOneChar(reader);
    if specifier == 'u' {
      assert reader.Remaining() == rest[2..];
      var buf := new byte[4](_ => 0);
      var n := reader.Read(buf);
      assert buf[..] == ReadBuf(rest[2..], 4) by {
        assert buf[..] == buf[..n] + buf[n..];
      }
      r := DecodeHexEscape(buf[..]);
    } else {
      match Escaped(specifier)
      case Some(e) => r := Ok(e);
      case None => r := Err(Invalid);
    }
  }
}
