/** What the tokenizer promises, proved about its specification functions. */
module TokenizerProperties {
  import opened RustCore
  import opened Tokenizer

  const NULL: seq<byte> := Bytes("null")
  const TRUE: seq<byte> := Bytes("true")
  const FALSE: seq<byte> := Bytes("false")

  function Spaces(n: nat): (s: seq<byte>)
    ensures |s| == n && forall i :: 0 <= i < n ==> CharOf(s[i]) == ' '
  {
    seq(n, _ => 32)
  }

  predicate StartsWith(s: seq<byte>, prefix: seq<byte>) {
    |prefix| <= |s| && s[..|prefix|] == prefix
  }

  /** A literal that holds no NUL byte and is ASCII. */
  predicate PlainLiteral(lit: seq<byte>) {
    forall i :: 0 <= i < |lit| ==> 0 < lit[i] < 0x80
  }

  // ---------------------------------------------------------------------------
  // tokenized
  // ---------------------------------------------------------------------------

  /** SkipSpaces is the only count with its defining properties. */
  lemma SkipSpacesUnique(rest: seq<byte>, q: nat)
    requires q <= |rest|
    requires forall i :: 0 <= i < q ==> CharOf(rest[i]) == ' '
    requires q < |rest| ==> CharOf(rest[q]) != ' '
    ensures q == SkipSpaces(rest)
  {
  }

  /** A prefix test, one byte at a time. */
  lemma StartsWithCons(b: byte, tail: seq<byte>, l: byte, litTail: seq<byte>)
    ensures StartsWith([b] + tail, [l] + litTail) <==> b == l && StartsWith(tail, litTail)
  {
    var t, lit := [b] + tail, [l] + litTail;
    if StartsWith(t, lit) {
      assert t[..|lit|][0] == lit[0];
      assert tail[..|litTail|] == t[..|lit|][1..];
    }
    if b == l && StartsWith(tail, litTail) {
      assert |lit| <= |t|;
      assert t[..|lit|] == [b] + tail[..|litTail|];
      assert tail[..|litTail|] == litTail;
      assert t[..|lit|] == lit;
    }
  }

  /** Each whole literal is its selecting char and the rest the arm compares. */
  lemma LiteralsSplit()
    ensures NULL == [110] + ULL && CharOf(110) == 'n'
    ensures TRUE == [116] + RUE && CharOf(116) == 't'
    ensures FALSE == [102] + ALSE && CharOf(102) == 'f'
    ensures PlainLiteral(ULL) && PlainLiteral(RUE) && PlainLiteral(ALSE)
  {
  }

  /** A literal arm accepts exactly when the next `|lit|` bytes are `lit`. A
    * short input fails: the zeros that pad the buffer are not in `lit`. The
    * arm takes `|lit|` bytes, or all that are left. */
  lemma LiteralArm(rest: seq<byte>, lit: seq<byte>, value: JsonValue)
    requires PlainLiteral(lit)
    ensures MatchLiteral(rest, lit, value).out == (if StartsWith(rest, lit) then Ok(value) else Err(Invalid))
    ensures MatchLiteral(rest, lit, value).consumed == Min(|lit|, |rest|)
  {
    var buf := ReadBuf(rest, |lit|);
    assert IsAscii(lit);
    Utf8LiteralComparisonIsByteEquality(buf, lit);
    if StartsWith(rest, lit) {
      assert buf == lit;
    } else if |lit| <= |rest| {
      assert buf == rest[..|lit|];
    } else {
      assert buf[|rest|] != lit[|rest|];
    }
  }

  /** What `tokenized` returns, stated by the literal the input holds after its
    * leading spaces: `null`, `true` and `false` give their values and leave
    * the reader just after the literal; anything else is `Invalid`, including
    * the end of the input. */
  lemma TokenizeOutcome(rest: seq<byte>)
    requires FirstSignificant(rest) != '"'
    ensures var q, r := SkipSpaces(rest), Tokenize(rest);
      && r.out == (if StartsWith(rest[q..], NULL) then Ok(NullValue)
                   else if StartsWith(rest[q..], TRUE) then Ok(TrueValue)
                   else if StartsWith(rest[q..], FALSE) then Ok(FalseValue)
                   else Err(Invalid))
      && (r.out == Ok(NullValue) ==> r.consumed == q + 4)
      && (r.out == Ok(TrueValue) ==> r.consumed == q + 4)
      && (r.out == Ok(FalseValue) ==> r.consumed == q + 5)
  {
    var q := SkipSpaces(rest);
    var t := rest[q..];
    LiteralsSplit();
    if q < |rest| {
      var b, tail := rest[q], rest[q + 1..];
      assert t == [b] + tail;
      StartsWithCons(b, tail, 110, ULL);
      StartsWithCons(b, tail, 116, RUE);
      StartsWithCons(b, tail, 102, ALSE);
      if b == 110 {
        LiteralArm(tail, ULL, NullValue);
      } else if b == 116 {
        LiteralArm(tail, RUE, TrueValue);
      } else if b == 102 {
        LiteralArm(tail, ALSE, FalseValue);
      }
    } else {
      assert t == [];
    }
  }

  /** Any first significant char other than `n`, `t`, `f` and the quote makes
    * `tokenized` fail, after reading just that char. */
  lemma OtherLeadingCharInvalid(rest: seq<byte>)
    requires FirstSignificant(rest) !in {'n', 't', 'f', '"'}
    ensures Tokenize(rest) == Step(Err(Invalid), Min(SkipSpaces(rest) + 1, |rest|))
  {
    var after := Min(SkipSpaces(rest) + 1, |rest|);
    assert Dispatch(FirstSignificant(rest), rest[after..]) == Step(Err(Invalid), 0);
  }

  /** Leading spaces are skipped: after `n` spaces, `tokenized` returns what it
    * returns without them, having read `n` bytes more. */
  lemma LeadingSpacesSkipped(n: nat, s: seq<byte>)
    requires FirstSignificant(s) != '"'
    ensures FirstSignificant(Spaces(n) + s) != '"'
    ensures Tokenize(Spaces(n) + s) == Step(Tokenize(s).out, n + Tokenize(s).consumed)
  {
    var t := Spaces(n) + s;
    var q, after := SkipSpaces(s), Min(SkipSpaces(s) + 1, |s|);
    assert SkipSpaces(t) == n + q by {
      SkipSpacesAfterSpaces(n, s);
    }
    assert CharAt(t, n + q) == CharAt(s, q) by {
      if n + q < |t| {
        assert t[n + q] == s[q];
      }
    }
    assert Min(n + q + 1, |t|) == n + after;
    assert t[n + after..] == s[after..];
    var arm := Dispatch(CharAt(s, q), s[after..]);
    assert Tokenize(s) == Step(arm.out, after + arm.consumed);
    assert Tokenize(t) == Step(arm.out, n + after + arm.consumed);
  }

  /** Spaces in front of an input add to its count of leading spaces. */
  lemma {:induction false} SkipSpacesAfterSpaces(n: nat, s: seq<byte>)
    ensures SkipSpaces(Spaces(n) + s) == n + SkipSpaces(s)
  {
    var t := Spaces(n) + s;
    if n == 0 {
      assert t == s;
    } else {
      assert t[0] == 32 && t[1..] == Spaces(n - 1) + s;
      SkipSpacesAfterSpaces(n - 1, s);
    }
  }

  /** The literals of the source's tests. */
  lemma LiteralExamples()
    ensures Tokenize(NULL) == Step(Ok(NullValue), 4)
    ensures Tokenize(TRUE) == Step(Ok(TrueValue), 4)
    ensures Tokenize(FALSE) == Step(Ok(FalseValue), 5)
  {
    LiteralsSplit();
    assert SkipSpaces(NULL) == 0 && SkipSpaces(TRUE) == 0 && SkipSpaces(FALSE) == 0;
    assert NULL[0..] == NULL && TRUE[0..] == TRUE && FALSE[0..] == FALSE;
    assert StartsWith(NULL, NULL) && StartsWith(TRUE, TRUE) && StartsWith(FALSE, FALSE);
    TokenizeOutcome(NULL);
    TokenizeOutcome(TRUE);
    TokenizeOutcome(FALSE);
  }

  /** `null` after three spaces, as in the source's test. */
  lemma SpacedNullExample()
    ensures FirstSignificant(Bytes("   null")) == 'n'
    ensures Tokenize(Bytes("   null")) == Step(Ok(NullValue), 7)
  {
    var t := Bytes("   null");
    assert t == Spaces(3) + NULL by {
      assert forall i | 0 <= i < 7 :: t[i] == (Spaces(3) + NULL)[i];
    }
    LiteralExamples();
    LeadingSpacesSkipped(3, NULL);
    SkipSpacesUnique(t, 3);
  }

  /** Inputs that are not literals: a wrong byte, a cut-off literal and the
    * empty input. */
  lemma NonLiteralExamples()
    ensures FirstSignificant(Bytes("nxll")) == 'n'
    ensures Tokenize(Bytes("nxll")) == Step(Err(Invalid), 4)
    ensures FirstSignificant(Bytes("nu")) == 'n'
    ensures Tokenize(Bytes("nu")) == Step(Err(Invalid), 2)
    ensures Tokenize([]) == Step(Err(Invalid), 0)
  {
  }

  // ---------------------------------------------------------------------------
  // read_and_tokenized_char
  // ---------------------------------------------------------------------------

  /** A quote ends the string: the sentinel, after one byte. */
  lemma QuoteEndsString(rest: seq<byte>)
    requires rest != [] && CharOf(rest[0]) == '"'
    ensures ReadStringChar(rest) == Step(Err(EndOfString), 1)
  {
  }

  /** Any other char than the quote and the backslash comes back unchanged,
    * after one byte. */
  lemma PlainCharUnchanged(rest: seq<byte>)
    requires rest != [] && CharOf(rest[0]) != '"' && CharOf(rest[0]) != '\\'
    ensures ReadStringChar(rest) == Step(Ok(CharOf(rest[0])), 1)
  {
  }

  /** Past the end of the input every call yields NUL and reads nothing. */
  lemma EndOfInputYieldsNul()
    ensures ReadStringChar([]) == Step(Ok('\0'), 0)
  {
  }

  /** A backslash at the end of the input: the specifier read finds nothing,
    * so the specifier is NUL, which is no escape. `Invalid`, after one byte. */
  lemma LoneBackslashInvalid(rest: seq<byte>)
    requires |rest| == 1 && CharOf(rest[0]) == '\\'
    ensures ReadStringChar(rest) == Step(Err(Invalid), 1)
  {
  }

  /** What `k` consecutive calls return. */
  function ReadStringChars(rest: seq<byte>, k: nat): (rs: seq<Result<char>>)
    ensures |rs| == k
  {
    if k == 0 then []
    else
      var s := ReadStringChar(rest);
      [s.out] + ReadStringChars(rest[s.consumed..], k - 1)
  }

  /** Consecutive calls over plain chars return those chars, in order. */
  lemma {:induction false} PlainCharsInOrder(rest: seq<byte>, k: nat)
    requires k <= |rest|
    requires forall i :: 0 <= i < k ==> CharOf(rest[i]) != '"' && CharOf(rest[i]) != '\\'
    ensures forall i :: 0 <= i < k ==> ReadStringChars(rest, k)[i] == Ok(CharOf(rest[i]))
  {
    if k > 0 {
      PlainCharUnchanged(rest);
      PlainCharsInOrder(rest[1..], k - 1);
      assert ReadStringChars(rest, k) == [Ok(CharOf(rest[0]))] + ReadStringChars(rest[1..], k - 1);
    }
  }

  /** The two-character escapes, each taking two bytes, so that the next call
    * reads the byte after them. */
  lemma TwoCharEscapes(rest: seq<byte>)
    ensures ReadStringChar(Bytes("\\\"") + rest) == Step(Ok('"'), 2)
    ensures ReadStringChar(Bytes("\\\\") + rest) == Step(Ok('\\'), 2)
    ensures ReadStringChar(Bytes("\\/") + rest) == Step(Ok('/'), 2)
    ensures ReadStringChar(Bytes("\\n") + rest) == Step(Ok(10 as char), 2)
    ensures ReadStringChar(Bytes("\\f") + rest) == Step(Ok(12 as char), 2)
    ensures ReadStringChar(Bytes("\\r") + rest) == Step(Ok(13 as char), 2)
    ensures ReadStringChar(Bytes("\\t") + rest) == Step(Ok(9 as char), 2)
  {
  }

  /** Any other specifier than those and `u` is `Invalid`, after two bytes. */
  lemma UnknownEscapeInvalid(x: byte, rest: seq<byte>)
    requires CharOf(x) !in {'"', '\\', '/', 'n', 'f', 'r', 't', 'u'}
    ensures ReadStringChar(Bytes("\\") + [x] + rest) == Step(Err(Invalid), 2)
  {
  }

  /** The UTF-8 check of the `\u` path never decides anything: whenever
    * `from_utf8` rejects the four bytes, `from_str_radix` would have too. */
  lemma HexEscapeUtf8CheckRedundant(buf: seq<byte>)
    requires |buf| == 4
    ensures !ValidUtf8(buf) ==> FromStrRadix16(buf).None?
  {
    if FromStrRadix16(buf).Some? {
      forall i | 0 <= i < |buf|
        ensures buf[i] < 0x80
      {
        if i > 0 {
          assert HexDigit(buf[i]).Some?;
        }
      }
      AsciiIsValidUtf8(buf);
    }
  }

  /** A `\u` escape with a full group after it reads the whole group, takes
    * six bytes, and decodes the group as it stands. */
  lemma HexEscapeReadsGroup(g: seq<byte>, rest: seq<byte>)
    requires |g| == 4
    ensures ReadStringChar(Bytes("\\u") + g + rest) == Step(DecodeHexEscape(g), 6)
  {
    var t := Bytes("\\u") + g + rest;
    assert t[2..] == g + rest;
    assert ReadBuf(t[2..], 4) == g;
  }

  /** `\u` and four hex digits take six bytes and give the char of that code
    * point; a surrogate code point is `Invalid`. */
  lemma UnicodeEscape(h: seq<byte>, rest: seq<byte>)
    requires |h| == 4 && AllHexDigits(h)
    ensures var r := ReadStringChar(Bytes("\\u") + h + rest);
      && r.consumed == 6
      && (r.out.Ok? <==> !IsSurrogate(HexValue(h)))
      && (r.out.Ok? ==> r.out.value as int == HexValue(h))
      && (r.out.Err? ==> r.out.error == Invalid)
  {
    HexEscapeReadsGroup(h, rest);
    assert h[0] != 43 by {
      assert HexDigit(h[0]).Some?;
    }
    HexEscapeUtf8CheckRedundant(h);
  }

  /** A `\u` group that is not four hex digits is `Invalid`, unless it is `+`
    * and three hex digits (see UnicodeEscapeAcceptsPlus). The group is read
    * whole, so the call takes six bytes. */
  lemma UnicodeEscapeRejectsNonHex(g: seq<byte>, rest: seq<byte>)
    requires |g| == 4 && !AllHexDigits(g)
    requires !(CharOf(g[0]) == '+' && AllHexDigits(g[1..]))
    ensures ReadStringChar(Bytes("\\u") + g + rest) == Step(Err(Invalid), 6)
  {
    HexEscapeReadsGroup(g, rest);
  }

  /** `from_str_radix` skips a leading `+`, so `\u+` and three hex digits are
    * accepted as the char of that three-digit code point. */
  lemma UnicodeEscapeAcceptsPlus(h: seq<byte>, rest: seq<byte>)
    requires |h| == 3 && AllHexDigits(h)
    ensures var r := ReadStringChar(Bytes("\\u+") + h + rest);
      r.consumed == 6 && r.out.Ok? && r.out.value as int == HexValue(h)
  {
    var g := Bytes("+") + h;
    assert Bytes("\\u+") + h + rest == Bytes("\\u") + g + rest;
    HexEscapeReadsGroup(g, rest);
    assert g[1..] == h;
    HexEscapeUtf8CheckRedundant(g);
    assert HexValue(h) < 0x1000 by {
      assert Pow16(3) == 0x1000;
    }
  }

  /** A `\u` group cut short by the end of the input is `Invalid`: the zeros
    * padding the buffer are not hex digits. */
  lemma TruncatedUnicodeEscapeInvalid(g: seq<byte>)
    requires |g| < 4
    ensures ReadStringChar(Bytes("\\u") + g) == Step(Err(Invalid), 2 + |g|)
  {
    var t := Bytes("\\u") + g;
    assert t[2..] == g;
    var buf := ReadBuf(g, 4);
    assert HexDigit(buf[3]).None?;
    assert !AllHexDigits(buf[1..]) by {
      assert buf[1..][2] == buf[3];
    }
  }

  /** A lone quote ends the string at once, as in the source's test. */
  lemma EndOfStringExample()
    ensures ReadStringChar(Bytes("\"")) == Step(Err(EndOfString), 1)
  {
  }

  /** `\u004D` decodes to `M` and the next call sees `x`, as in the source's
    * test. */
  lemma UnicodeEscapeExample()
    ensures ReadStringChar(Bytes("\\u004Dx")) == Step(Ok('M'), 6)
  {
    var h, x := Bytes("004D"), Bytes("x");
    assert Bytes("\\u004Dx") == Bytes("\\u") + h + x;
    assert HexValue(h) == 77 by {
      assert h[1..][1..][1..] == [h[3]];
    }
    UnicodeEscape(h, x);
  }

  /** `\x` is not an escape, as in the source's test. */
  lemma InvalidEscapeExample()
    ensures ReadStringChar(Bytes("\\x")) == Step(Err(Invalid), 2)
  {
    var t := Bytes("\\x");
    assert t == Bytes("\\") + [t[1]] + [];
    UnknownEscapeInvalid(t[1], []);
  }
}
