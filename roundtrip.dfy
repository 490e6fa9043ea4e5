/**
 * What the serialiser of src/iostream.cc writes, read back by the lexer of
 * src/token-stream.cc: the body of a quoted string decodes to the string,
 * and a printed integer is a number literal that `make_int` converts back.
 */
module RoundTrips {
  import opened Types
  import opened StringScanner
  import NumberScanner
  import Output

  const U0 := UState(0, 0)

  /** One step of the string machine at the front of the input. */
  lemma DecodeCons(state: StringState, u: UState, c: byte, t: bytes, str: bytes, next: (StringState, UState, bytes))
    requires state in {SRegular, SEscaped, SUescape} && UInv(u)
    requires next == StringStep(state, u, c, str)
    ensures var r := Decode(next.0, next.1, t, next.2);
      Decode(state, u, [c] + t, str) == (r.0, r.1 + 1, r.2)
  {
    assert ([c] + t)[0] == c && ([c] + t)[1..] == t;
  }

  /** In the unicode state a step is `uescape::scan`. */
  lemma StepIsUScan(u: UState, c: byte, str: bytes)
    requires UInv(u)
    ensures StringStep(SUescape, u, c, str) == UScan(u, c, str)
  {
  }

  /** Four steps of the unicode state, whatever they compute. */
  lemma DecodeFour(h: bytes, t: bytes, str: bytes, r1: (StringState, UState, bytes),
                   r2: (StringState, UState, bytes), r3: (StringState, UState, bytes), r4: (StringState, UState, bytes))
    requires |h| == 4
    requires r1 == UScan(U0, h[0], str) && r1.0 == SUescape && r1.2 == str && UInv(r1.1)
    requires r2 == UScan(r1.1, h[1], str) && r2.0 == SUescape && r2.2 == str && UInv(r2.1)
    requires r3 == UScan(r2.1, h[2], str) && r3.0 == SUescape && r3.2 == str && UInv(r3.1)
    requires r4 == UScan(r3.1, h[3], str)
    ensures var r := Decode(r4.0, r4.1, t, r4.2);
      Decode(SUescape, U0, h + t, str) == (r.0, r.1 + 4, r.2)
  {
    var t3 := [h[3]] + t;
    var t2 := [h[2]] + t3;
    var t1 := [h[1]] + t2;
    assert h + t == [h[0]] + t1 by {
      assert h == [h[0], h[1], h[2], h[3]];
    }
    StepIsUScan(U0, h[0], str);
    StepIsUScan(r1.1, h[1], str);
    StepIsUScan(r2.1, h[2], str);
    StepIsUScan(r3.1, h[3], str);
    DecodeCons(SUescape, r3.1, h[3], t, str, r4);
    DecodeCons(SUescape, r2.1, h[2], t3, str, r3);
    DecodeCons(SUescape, r1.1, h[1], t2, str, r2);
    DecodeCons(SUescape, U0, h[0], t1, str, r1);
  }

  /** Four hex digits after `\u` hand their value to the UTF-8 encoder. */
  lemma DecodeHex(h: bytes, t: bytes, str: bytes)
    requires IsHex4(h)
    ensures var e := Utf8Encode(HexValue(h), str);
      var r := Decode(e.0, U0, t, e.1);
      Decode(SUescape, U0, h + t, str) == (r.0, r.1 + 4, r.2)
  {
    UScanFour(h, str);
    var r1 := UScan(U0, h[0], str);
    var r2 := UScan(r1.1, h[1], r1.2);
    var r3 := UScan(r2.1, h[2], r2.2);
    var r4 := UScan(r3.1, h[3], r3.2);
    DecodeFour(h, t, str, r1, r2, r3, r4);
  }

  /** A byte that needs no escaping stands for itself. */
  lemma DecodePlain(c: byte, t: bytes, str: bytes)
    requires |Output.Escape(c)| == 1
    ensures var r := Decode(SRegular, U0, t, str + [c]);
      Decode(SRegular, U0, Output.Escape(c) + t, str) == (r.0, r.1 + 1, r.2)
  {
    DecodeCons(SRegular, U0, c, t, str, (SRegular, U0, str + [c]));
  }

  /** A two-byte escape: the backslash, then the byte after it. */
  lemma DecodeShort(c: byte, t: bytes, str: bytes)
    requires |Output.Escape(c)| == 2
    ensures var r := Decode(SRegular, U0, t, str + [c]);
      Decode(SRegular, U0, Output.Escape(c) + t, str) == (r.0, r.1 + 2, r.2)
  {
    var e := Output.Escape(c);
    assert e + t == [e[0]] + ([e[1]] + t);
    assert EscapedByte(e[1]) == Some(c);
    DecodeCons(SEscaped, U0, e[1], t, str, (SRegular, U0, str + [c]));
    DecodeCons(SRegular, U0, e[0], [e[1]] + t, str, (SEscaped, U0, str));
  }

  /** A `\u00xx` escape of a control byte. */
  lemma DecodeControl(c: byte, t: bytes, str: bytes)
    requires c != 0 && |Output.Escape(c)| == 6
    ensures var r := Decode(SRegular, U0, t, str + [c]);
      Decode(SRegular, U0, Output.Escape(c) + t, str) == (r.0, r.1 + 6, r.2)
  {
    var e := Output.Escape(c);
    assert c <= 0x1F && c != 0x08 && c != 0x09 && c != 0x0A && c != 0x0C && c != 0x0D;
    Output.ControlEscape(c);
    var h := e[2..];
    assert e + t == [e[0]] + ([e[1]] + (h + t));
    assert Utf8Encode(HexValue(h), str) == (SRegular, str + [c]);
    var r := Decode(SRegular, U0, t, str + [c]);
    DecodeHex(h, t, str);
    assert Decode(SUescape, U0, h + t, str) == (r.0, r.1 + 4, r.2);
    DecodeCons(SEscaped, U0, e[1], h + t, str, (SUescape, U0, str));
    assert Decode(SEscaped, U0, [e[1]] + (h + t), str) == (r.0, r.1 + 5, r.2);
    DecodeCons(SRegular, U0, e[0], [e[1]] + (h + t), str, (SEscaped, U0, str));
  }

  /** The escape of a non-NUL byte decodes to that byte. */
  lemma DecodeEscape(c: byte, t: bytes, str: bytes)
    requires c != 0
    ensures var r := Decode(SRegular, U0, t, str + [c]);
      Decode(SRegular, U0, Output.Escape(c) + t, str) == (r.0, r.1 + |Output.Escape(c)|, r.2)
  {
    var e := Output.Escape(c);
    if |e| == 1 {
      DecodePlain(c, t, str);
    } else if |e| == 2 {
      DecodeShort(c, t, str);
    } else {
      DecodeControl(c, t, str);
    }
  }

  /**
   * For a string without NUL, the lexer's string machine run over what
   * `quote` writes after the opening quote stops on the closing quote, in
   * SDONES, having consumed exactly the quoted text and rebuilt the string.
   */
  lemma {:induction false} QuoteDecodes(s: bytes, rest: bytes, str: bytes)
    requires forall i :: 0 <= i < |s| ==> s[i] != 0
    ensures Decode(SRegular, U0, Output.Escaped(s) + [Output.QUOTE] + rest, str) ==
      (SDones, |Output.Escaped(s)| + 1, str + s)
    decreases |s|
  {
    if s == [] {
      assert Output.Escaped(s) + [Output.QUOTE] + rest == [Output.QUOTE] + rest;
      DecodeCons(SRegular, U0, Output.QUOTE, rest, str, (SDones, U0, str));
      assert str + s == str;
    } else {
      var t := Output.Escaped(s[1..]) + [Output.QUOTE] + rest;
      assert Output.Escaped(s) + [Output.QUOTE] + rest == Output.Escape(s[0]) + t;
      DecodeEscape(s[0], t, str);
      QuoteDecodes(s[1..], rest, str + [s[0]]);
      assert str + [s[0]] + s[1..] == str + s;
    }
  }

  /** The quoted text as a whole: the lexer consumes `"` and then runs the string machine on the rest. */
  lemma QuotedDecodes(s: bytes)
    requires forall i :: 0 <= i < |s| ==> s[i] != 0
    ensures var q := Output.Quoted(s);
      q[0] == Output.QUOTE && Decode(SRegular, U0, q[1..], []) == (SDones, |q| - 1, s)
  {
    var q := Output.Quoted(s);
    assert q[1..] == Output.Escaped(s) + [Output.QUOTE] + [];
    QuoteDecodes(s, [], []);
    assert [] + s == s;
  }

  /** The digits `ostream` writes for `n` spell `n`. */
  lemma {:induction false} DigitsOfValue(n: nat)
    ensures NumberScanner.AllDigits(Output.DigitsOf(n))
    ensures NumberScanner.DecimalValue(Output.DigitsOf(n)) == n
    decreases n
  {
    var d := Output.DigitsOf(n);
    if n >= 10 {
      DigitsOfValue(n / 10);
      assert d[..|d| - 1] == Output.DigitsOf(n / 10);
    }
  }

  /** A printed integer is a number literal of the lexer's grammar, and its table accepts it. */
  lemma DecimalLexes(i: int)
    ensures NumberScanner.IsNumberLiteral(Output.Decimal(i))
    ensures NumberScanner.IsAccepting(NumberScanner.Run(NumberScanner.SStart, Output.Decimal(i)))
  {
    var m := if i < 0 then -i else i;
    var d := Output.DigitsOf(m);
    DigitsOfValue(m);
    if |d| > 1 {
      assert NumberScanner.AllDigits(d[1..]);
      assert d[1..][NumberScanner.Digits(d[1..], 0)..] == [];
    } else {
      assert d[1..] == [];
    }
    assert NumberScanner.IntAndRest(d);
    if i < 0 {
      assert Output.Decimal(i)[1..] == d;
    }
    NumberScanner.NumberLanguage(Output.Decimal(i));
  }

  /** `make_int` converts a printed `int64_t` back to the same value. */
  lemma DecimalReadsBack(i: int64)
    ensures NumberScanner.MakeInt(Output.Decimal(i as int)) == Some(i)
  {
    var s := Output.Decimal(i as int);
    var m := if i < 0 then -(i as int) else i as int;
    var d := Output.DigitsOf(m);
    DigitsOfValue(m);
    assert NumberScanner.LeadingSpace(s) == 0;
    var t := s[NumberScanner.LeadingSpace(s)..];
    assert t == s;
    var signed := t != [] && (t[0] == 0x2B || t[0] == 0x2D);
    assert signed == (i < 0);
    if i < 0 {
      assert t[1..] == d;
    }
    assert NumberScanner.Digits(d, 0) == |d|;
  }
}
