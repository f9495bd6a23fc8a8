/** The pieces of Rust's core library that the JSON tokenizer relies on:
  * bytes and the `u8 as char` cast, UTF-8 validation as done by
  * `core::str::from_utf8`, `u32::from_str_radix` for radix 16, and
  * `char::from_u32`. */
module RustCore {

  newtype byte = b: int | 0 <= b < 256

  datatype Option<T> = None | Some(value: T)

  function Min(a: nat, b: nat): nat { if a <= b then a else b }

  /** `b as char`: the char whose code point is the value of the byte. */
  function CharOf(b: byte): (c: char)
    ensures c as int == b as int
  {
    (b as int) as char
  }

  predicate IsAsciiString(s: string) {
    forall i :: 0 <= i < |s| ==> s[i] as int < 0x80
  }

  /** The bytes of an ASCII string, as Rust stores a string literal. */
  function Bytes(s: string): (b: seq<byte>)
    requires IsAsciiString(s)
    ensures |b| == |s|
    ensures forall i :: 0 <= i < |s| ==> b[i] as int == s[i] as int
  {
    seq(|s|, i requires 0 <= i < |s| => s[i] as int as byte)
  }

  predicate IsAscii(s: seq<byte>) {
    forall i :: 0 <= i < |s| ==> s[i] < 0x80
  }

  // ---------------------------------------------------------------------------
  // core::str::from_utf8
  // ---------------------------------------------------------------------------

  predicate IsContinuation(b: byte) { 0x80 <= b <= 0xBF }

  /** The second byte of a three-byte sequence led by `lead` (no overlong
    * forms, no surrogates). */
  predicate SecondOfThree(lead: byte, b: byte) {
    if lead == 0xE0 then 0xA0 <= b <= 0xBF
    else if lead == 0xED then 0x80 <= b <= 0x9F
    else IsContinuation(b)
  }

  /** The second byte of a four-byte sequence led by `lead` (no overlong
    * forms, nothing above U+10FFFF). */
  predicate SecondOfFour(lead: byte, b: byte) {
    if lead == 0xF0 then 0x90 <= b <= 0xBF
    else if lead == 0xF4 then 0x80 <= b <= 0x8F
    else IsContinuation(b)
  }

  /** `core::str::from_utf8(s).is_ok()`: `s` is well-formed UTF-8 in the sense of
    * Table 3-7 of the Unicode Standard, which is what `from_utf8` checks. A
    * valid string never starts with a continuation byte, `C0`, `C1` or a byte
    * above `F4`, and a multi-byte sequence is never cut off after its lead. */
  predicate ValidUtf8(s: seq<byte>): (ok: bool)
    decreases |s|
    ensures ok && s != [] ==> s[0] <= 0x7F || 0xC2 <= s[0] <= 0xF4
    ensures ok && s != [] && 0x80 <= s[0] ==> 2 <= |s| && IsContinuation(s[1])
  {
    if s == [] then true
    else if s[0] <= 0x7F then ValidUtf8(s[1..])
    else if 0xC2 <= s[0] <= 0xDF then
      2 <= |s| && IsContinuation(s[1]) && ValidUtf8(s[2..])
    else if 0xE0 <= s[0] <= 0xEF then
      3 <= |s| && SecondOfThree(s[0], s[1]) && IsContinuation(s[2]) && ValidUtf8(s[3..])
    else if 0xF0 <= s[0] <= 0xF4 then
      4 <= |s| && SecondOfFour(s[0], s[1]) && IsContinuation(s[2]) && IsContinuation(s[3])
      && ValidUtf8(s[4..])
    else false
  }

  /** Every ASCII byte string is valid UTF-8, so `from_utf8` accepts it. */
  lemma {:induction false} AsciiIsValidUtf8(s: seq<byte>)
    requires IsAscii(s)
    ensures ValidUtf8(s)
  {
    if s != [] {
      AsciiIsValidUtf8(s[1..]);
    }
  }

  /** Comparing `from_utf8(buf)` against an ASCII literal is byte equality:
    * the UTF-8 check can never be what makes the comparison fail. */
  lemma Utf8LiteralComparisonIsByteEquality(buf: seq<byte>, lit: seq<byte>)
    requires IsAscii(lit)
    ensures (ValidUtf8(buf) && buf == lit) <==> buf == lit
  {
    if buf == lit {
      AsciiIsValidUtf8(lit);
    }
  }

  // ---------------------------------------------------------------------------
  // u32::from_str_radix(_, 16)
  // ---------------------------------------------------------------------------

  /** The hex digits, indexed by their value. */
  const LOWER_DIGITS: string := "0123456789abcdef"
  const UPPER_DIGITS: string := "0123456789ABCDEF"

  /** `char::to_digit(16)` applied to one byte of the string. */
  function HexDigit(b: byte): (d: Option<nat>)
    ensures d.Some? ==> d.value < 16
  {
    var c := CharOf(b);
    if '0' <= c <= '9' then Some(c as int - '0' as int)
    else if 'a' <= c <= 'f' then Some(c as int - 'a' as int + 10)
    else if 'A' <= c <= 'F' then Some(c as int - 'A' as int + 10)
    else None
  }

  /** A byte is a hex digit of value `v` exactly when it spells `v` in lower or
    * upper case. */
  lemma HexDigitSpelling(b: byte)
    ensures HexDigit(b).Some? ==>
      CharOf(b) == LOWER_DIGITS[HexDigit(b).value] || CharOf(b) == UPPER_DIGITS[HexDigit(b).value]
    ensures forall v :: 0 <= v < 16 && (CharOf(b) == LOWER_DIGITS[v] || CharOf(b) == UPPER_DIGITS[v]) ==>
      HexDigit(b) == Some(v)
  {
  }

  predicate AllHexDigits(s: seq<byte>) {
    forall i :: 0 <= i < |s| ==> HexDigit(s[i]).Some?
  }

  function Pow16(n: nat): (p: nat)
    ensures p >= 1
  {
    if n == 0 then 1 else 16 * Pow16(n - 1)
  }

  /** The positional value of a string of hex digits, most significant first. */
  function HexValue(s: seq<byte>): (v: nat)
    requires AllHexDigits(s)
    ensures v < Pow16(|s|)
  {
    if s == [] then 0
    else
      var d, p := HexDigit(s[0]).value, Pow16(|s| - 1);
      DigitBound(d, p, HexValue(s[1..]));
      d * p + HexValue(s[1..])
  }

  /** A digit below 16 in front of a smaller number stays below the next power. */
  lemma DigitBound(d: nat, p: nat, low: nat)
    requires d < 16 && low < p
    ensures d * p + low < 16 * p
  {
    assert d * p <= 15 * p;
  }

  /** The digit loop of `from_str_radix`: read digits left to right, multiplying
    * the accumulator by the radix; the first byte that is not a digit fails. */
  function AccumulateDigits(digits: seq<byte>, acc: nat): (r: Option<nat>)
    ensures r.Some? <==> AllHexDigits(digits)
    ensures r.Some? ==> r.value == acc * Pow16(|digits|) + HexValue(digits)
  {
    if digits == [] then Some(acc)
    else
      match HexDigit(digits[0])
      case None => None
      case Some(d) =>
        var p := Pow16(|digits| - 1);
        assert (acc * 16 + d) * p == acc * (16 * p) + d * p;
        AccumulateDigits(digits[1..], acc * 16 + d)
  }

  /** `u32::from_str_radix(s, 16)`. An empty string, or a lone sign, fails; a
    * leading `+` is skipped; a leading `-` is not a digit of an unsigned type
    * and fails. At most eight digits are passed here, and eight hex digits
    * always fit in a `u32`, so the overflow check of the library never fires. */
  function FromStrRadix16(s: seq<byte>): (r: Option<nat>)
    requires |s| <= 8
    ensures r.Some? <==>
      (s != [] && AllHexDigits(s)) || (|s| > 1 && CharOf(s[0]) == '+' && AllHexDigits(s[1..]))
    ensures r.Some? && CharOf(s[0]) != '+' ==> r.value == HexValue(s)
    ensures r.Some? && CharOf(s[0]) == '+' ==> r.value == HexValue(s[1..])
    ensures r.Some? ==> r.value < Pow16(|s|)
  {
    if s == [] then None
    else if |s| == 1 && (CharOf(s[0]) == '+' || CharOf(s[0]) == '-') then None
    else if CharOf(s[0]) == '+' then
      assert HexDigit(s[0]).None?;
      AccumulateDigits(s[1..], 0)
    else AccumulateDigits(s, 0)
  }

  // ---------------------------------------------------------------------------
  // char::from_u32
  // ---------------------------------------------------------------------------

  predicate IsSurrogate(v: nat) { 0xD800 <= v <= 0xDFFF }

  /** `char::from_u32(v)`: a char exactly when `v` is a Unicode scalar value. */
  function FromU32(v: nat): (r: Option<char>)
    requires v < 0x1_0000_0000
    ensures r.Some? <==> v < 0x11_0000 && !IsSurrogate(v)
    ensures r.Some? ==> r.value as int == v
  {
    if v < 0xD800 || 0xE000 <= v < 0x11_0000 then Some(v as char) else None
  }
}
