/**
 * The number recogniser of src/token-stream.cc: the `NumberState` transition
 * table scanned by `number_state`, the language it accepts, and the integer
 * conversion `make_int` (a `strtoll` with a full-consumption check).
 */
module NumberScanner {
  import opened Types

  /** `NumberState`; SDONE and SERROR have no row in the table. */
  datatype NumberState =
    | SStart
    | SMinus
    | SIntZero
    | SIntDigit
    | SIntDigit19
    | SDecPoint
    | SFracDigit
    | SE
    | SEPlus
    | SEMinus
    | SEDigit
    | SDone
    | SError
  {
    predicate HasRow()
    {
      !(SDone? || SError?)
    }
  }

  /** One table entry: the characters it matches (`None` for the final catch-all) and its target. */
  datatype Transition = Transition(chars: Option<bytes>, target: NumberState)

  const MINUS: bytes := [0x2D]
  const PLUS: bytes := [0x2B]
  const ZERO: bytes := [0x30]
  const DOT: bytes := [0x2E]
  const EXPONENT: bytes := [0x65, 0x45]
  const DIGIT19: bytes := [0x31, 0x32, 0x33, 0x34, 0x35, 0x36, 0x37, 0x38, 0x39]
  const DIGIT: bytes := ZERO + DIGIT19

  /** The row of `transitions` for a state, in the order the table lists its entries. */
  function Row(q: NumberState): (row: seq<Transition>)
    requires q.HasRow()
    ensures 0 < |row| <= 4 && row[|row| - 1].chars.None?
  {
    match q
    case SStart => [Transition(Some(MINUS), SMinus), Transition(Some(ZERO), SIntZero),
                    Transition(Some(DIGIT19), SIntDigit19), Transition(None, SError)]
    case SMinus => [Transition(Some(ZERO), SIntZero), Transition(Some(DIGIT19), SIntDigit19),
                    Transition(None, SError)]
    case SIntZero => [Transition(Some(EXPONENT), SE), Transition(Some(DOT), SDecPoint),
                      Transition(None, SDone)]
    case SIntDigit => [Transition(Some(EXPONENT), SE), Transition(Some(DOT), SDecPoint),
                       Transition(Some(DIGIT), SIntDigit), Transition(None, SDone)]
    case SIntDigit19 => [Transition(Some(EXPONENT), SE), Transition(Some(DOT), SDecPoint),
                         Transition(Some(DIGIT), SIntDigit), Transition(None, SDone)]
    case SDecPoint => [Transition(Some(EXPONENT), SE), Transition(Some(DIGIT), SFracDigit),
                       Transition(None, SError)]
    case SFracDigit => [Transition(Some(EXPONENT), SE), Transition(Some(DIGIT), SFracDigit),
                        Transition(None, SDone)]
    case SE => [Transition(Some(MINUS), SEMinus), Transition(Some(PLUS), SEPlus),
                Transition(Some(DIGIT), SEDigit), Transition(None, SError)]
    case SEPlus => [Transition(Some(DIGIT), SEDigit), Transition(None, SError)]
    case SEMinus => [Transition(Some(DIGIT), SEDigit), Transition(None, SError)]
    case SEDigit => [Transition(Some(DIGIT), SEDigit), Transition(None, SDone)]
  }

  /**
   * `strchr(s, c) != NULL`: `c` is converted to `char`, and the terminating
   * NUL of `s` is part of the search.
   */
  predicate StrChr(s: bytes, c: int)
  {
    c % 0x100 == 0 || (c % 0x100) as byte in s
  }

  /** The first entry of `row` from index `t` on that matches `c`. */
  function Lookup(row: seq<Transition>, c: int, t: nat): NumberState
    requires t < |row| && row[|row| - 1].chars.None?
    decreases |row| - t
  {
    if row[t].chars.None? || StrChr(row[t].chars.value, c) then row[t].target
    else Lookup(row, c, t + 1)
  }

  /** `number_state(c, state)`. */
  function NextNumberState(c: int, q: NumberState): (r: NumberState)
    requires q.HasRow()
  {
    Lookup(Row(q), c, 0)
  }

  /** `number_state`: the `for` loop over the entries of the row. */
  method NumberStateOf(c: int, q: NumberState) returns (r: NumberState)
    requires q.HasRow()
    ensures r == NextNumberState(c, q)
  {
    var row := Row(q);
    var t := 0;
    while true
      invariant 0 <= t < |row|
      invariant Lookup(row, c, t) == Lookup(row, c, 0)
      decreases |row| - t
    {
      var chars := row[t].chars;
      if chars.None? || StrChr(chars.value, c) {
        return row[t].target;
      }
      t := t + 1;
    }
  }

  predicate IsDigit(c: int) { 0x30 <= c <= 0x39 }
  predicate IsDigit19(c: int) { 0x31 <= c <= 0x39 }
  predicate IsExponent(c: int) { c == 0x65 || c == 0x45 }

  /**
   * The table on one byte other than NUL (the stream never delivers NUL),
   * or on a negative end marker of `getc`, which matches no characters.
   */
  lemma {:induction false} StepTable(c: int, q: NumberState)
    requires q.HasRow() && (0 < c < 0x100 || c == -1 || c == -2)
    ensures NextNumberState(c, q) ==
      match q
      case SStart => if c == 0x2D then SMinus else if c == 0x30 then SIntZero
                     else if IsDigit19(c) then SIntDigit19 else SError
      case SMinus => if c == 0x30 then SIntZero else if IsDigit19(c) then SIntDigit19 else SError
      case SIntZero => if IsExponent(c) then SE else if c == 0x2E then SDecPoint else SDone
      case SIntDigit => if IsExponent(c) then SE else if c == 0x2E then SDecPoint
                        else if IsDigit(c) then SIntDigit else SDone
      case SIntDigit19 => if IsExponent(c) then SE else if c == 0x2E then SDecPoint
                          else if IsDigit(c) then SIntDigit else SDone
      case SDecPoint => if IsExponent(c) then SE else if IsDigit(c) then SFracDigit else SError
      case SFracDigit => if IsExponent(c) then SE else if IsDigit(c) then SFracDigit else SDone
      case SE => if c == 0x2D then SEMinus else if c == 0x2B then SEPlus
                 else if IsDigit(c) then SEDigit else SError
      case SEPlus => if IsDigit(c) then SEDigit else SError
      case SEMinus => if IsDigit(c) then SEDigit else SError
      case SEDigit => if IsDigit(c) then SEDigit else SDone
  {
    ByteSets(c);
    var row := Row(q);
    LookupStep(row, c, 0);
    if |row| > 1 { LookupStep(row, c, 1); }
    if |row| > 2 { LookupStep(row, c, 2); }
    if |row| > 3 { LookupStep(row, c, 3); }
  }

  /** One entry of the row scan: a match returns its target, anything else goes on to the next entry. */
  lemma LookupStep(row: seq<Transition>, c: int, t: nat)
    requires t < |row| && row[|row| - 1].chars.None?
    ensures Lookup(row, c, t) ==
      if row[t].chars.None? || StrChr(row[t].chars.value, c) then row[t].target else Lookup(row, c, t + 1)
  {
  }

  /** `strchr` on the character sets of the table, for a byte other than NUL or an end marker. */
  lemma ByteSets(c: int)
    requires 0 < c < 0x100 || c == -1 || c == -2
    ensures StrChr(MINUS, c) <==> c == 0x2D
    ensures StrChr(PLUS, c) <==> c == 0x2B
    ensures StrChr(ZERO, c) <==> c == 0x30
    ensures StrChr(DOT, c) <==> c == 0x2E
    ensures StrChr(EXPONENT, c) <==> IsExponent(c)
    ensures StrChr(DIGIT19, c) <==> IsDigit19(c)
    ensures StrChr(DIGIT, c) <==> IsDigit(c)
  {
    var ch := c % 0x100;
    assert ch != 0 && (0 < c ==> ch == c) && (c < 0 ==> ch >= 0xFE);
  }

  /** Only a byte other than NUL keeps the table going; the end markers of `getc` always stop it. */
  lemma ContinuingByte(c: int, q: NumberState)
    requires q.HasRow() && (0 < c < 0x100 || c == -1 || c == -2)
    ensures NextNumberState(c, q).HasRow() ==> 0 < c < 0x100
  {
    StepTable(c, q);
  }

  /** The one-byte steps never return to SSTART. */
  lemma StepNotStart(c: int, q: NumberState)
    requires q.HasRow()
    ensures NextNumberState(c, q) != SStart
  {
    var row := Row(q);
    assert forall t :: 0 <= t < |row| ==> row[t].target != SStart;
    LookupIn(row, c, 0);
  }

  lemma {:induction false} LookupIn(row: seq<Transition>, c: int, t: nat)
    requires t < |row| && row[|row| - 1].chars.None?
    ensures exists k :: t <= k < |row| && Lookup(row, c, t) == row[k].target
    decreases |row| - t
  {
    if !(row[t].chars.None? || StrChr(row[t].chars.value, c)) {
      LookupIn(row, c, t + 1);
    }
  }

  /** The states whose catch-all entry is SDONE: a literal may end in them. */
  predicate IsAccepting(q: NumberState)
  {
    q in {SIntZero, SIntDigit, SIntDigit19, SFracDigit, SEDigit}
  }

  /** The table run over a byte string; it stops at SDONE or SERROR. */
  function Run(q: NumberState, s: bytes): NumberState
    decreases |s|
  {
    if s == [] || !q.HasRow() then q else Run(NextNumberState(s[0] as int, q), s[1..])
  }

  predicate NoNul(s: bytes)
  {
    forall i :: 0 <= i < |s| ==> s[i] != 0
  }

  predicate AllDigits(s: bytes)
  {
    forall i :: 0 <= i < |s| ==> IsDigit(s[i] as int)
  }

  /** The end of the longest run of digits starting at `i`. */
  function Digits(s: bytes, i: nat): (r: nat)
    requires i <= |s|
    ensures i <= r <= |s| && AllDigits(s[i..r]) && (r == |s| || !IsDigit(s[r] as int))
    decreases |s| - i
  {
    if i < |s| && IsDigit(s[i] as int) then Digits(s, i + 1) else i
  }

  // The number grammar of section 6 of RFC 7159, piece by piece, with the one
  // difference of the table: a decimal point may be followed by the exponent directly.

  /** `[+-]? 1*DIGIT` */
  predicate ExpBody(s: bytes)
  {
    s != [] &&
    if s[0] == 0x2B || s[0] == 0x2D then s[1..] != [] && AllDigits(s[1..]) else AllDigits(s)
  }

  /** `[eE] [+-]? 1*DIGIT` */
  predicate ExpPart(s: bytes)
  {
    s != [] && IsExponent(s[0] as int) && ExpBody(s[1..])
  }

  predicate OptExp(s: bytes)
  {
    s == [] || ExpPart(s)
  }

  /** What may follow a decimal point: digits and an optional exponent, or an exponent alone. */
  predicate DotRest(s: bytes)
  {
    s != [] && (ExpPart(s) || (IsDigit(s[0] as int) && OptExp(s[Digits(s, 0)..])))
  }

  /** An optional fraction and an optional exponent. */
  predicate FracAndExp(s: bytes)
  {
    OptExp(s) || (s != [] && s[0] == 0x2E && DotRest(s[1..]))
  }

  /** `int frac? exp?` with `int = 0 / digit1-9 *DIGIT`. */
  predicate IntAndRest(s: bytes)
  {
    s != [] &&
    ((s[0] == 0x30 && FracAndExp(s[1..])) ||
     (IsDigit19(s[0] as int) && FracAndExp(s[1..][Digits(s[1..], 0)..])))
  }

  /** `[ minus ] int [ frac ] [ exp ]` */
  predicate IsNumberLiteral(s: bytes)
  {
    if s != [] && s[0] == 0x2D then IntAndRest(s[1..]) else IntAndRest(s)
  }

  lemma {:induction false} RunEDigit(s: bytes)
    requires NoNul(s)
    ensures IsAccepting(Run(SEDigit, s)) <==> AllDigits(s)
    decreases |s|
  {
    if s != [] {
      StepTable(s[0] as int, SEDigit);
      RunEDigit(s[1..]);
      assert AllDigits(s) <==> IsDigit(s[0] as int) && AllDigits(s[1..]);
    }
  }

  lemma {:induction false} RunE(s: bytes)
    requires NoNul(s)
    ensures IsAccepting(Run(SE, s)) <==> ExpBody(s)
  {
    if s != [] {
      StepTable(s[0] as int, SE);
      RunEDigit(s[1..]);
      if s[0] == 0x2B || s[0] == 0x2D {
        if s[1..] != [] {
          StepTable(s[1] as int, SEDigit);
          StepTable(s[1] as int, SEPlus);
          StepTable(s[1] as int, SEMinus);
          RunEDigit(s[2..]);
          assert s[1..][1..] == s[2..] && s[1..][0] == s[1];
          var q1 := NextNumberState(s[0] as int, SE);
          assert Run(SE, s) == Run(q1, s[1..]);
          assert Run(q1, s[1..]) == Run(NextNumberState(s[1] as int, q1), s[2..]);
          assert AllDigits(s[1..]) <==> IsDigit(s[1] as int) && AllDigits(s[2..]);
        }
      } else {
        assert AllDigits(s) <==> IsDigit(s[0] as int) && AllDigits(s[1..]);
      }
    }
  }

  lemma {:induction false} RunExponent(q: NumberState, s: bytes)
    requires NoNul(s) && s != [] && IsExponent(s[0] as int)
    requires q in {SIntZero, SIntDigit, SIntDigit19, SDecPoint, SFracDigit}
    ensures IsAccepting(Run(q, s)) <==> ExpPart(s)
  {
    StepTable(s[0] as int, q);
    RunE(s[1..]);
  }

  lemma {:induction false} RunFracDigit(s: bytes)
    requires NoNul(s)
    ensures IsAccepting(Run(SFracDigit, s)) <==> OptExp(s[Digits(s, 0)..])
    decreases |s|
  {
    if s != [] {
      StepTable(s[0] as int, SFracDigit);
      if IsDigit(s[0] as int) {
        RunFracDigit(s[1..]);
        DigitsShift(s);
      } else if IsExponent(s[0] as int) {
        RunExponent(SFracDigit, s);
      }
    }
  }

  /** Skipping the run of digits of `s` is skipping one digit and then the rest of the run. */
  lemma DigitsShift(s: bytes)
    requires s != [] && IsDigit(s[0] as int)
    ensures s[Digits(s, 0)..] == s[1..][Digits(s[1..], 0)..]
  {
    DigitsSuffix(s, 1);
  }

  lemma {:induction false} DigitsSuffix(s: bytes, i: nat)
    requires 1 <= i <= |s| && AllDigits(s[..i])
    ensures Digits(s, 0) - 1 == Digits(s[1..], 0)
    ensures Digits(s, 0) == Digits(s, i) && Digits(s[1..], 0) == Digits(s[1..], i - 1)
    decreases |s| - i
  {
    if i < |s| && IsDigit(s[i] as int) {
      assert AllDigits(s[..i + 1]) by {
        assert forall k :: 0 <= k < i ==> s[..i + 1][k] == s[..i][k];
      }
      DigitsSuffix(s, i + 1);
    } else {
      DigitsFrom(s, 0, i);
      DigitsFrom(s[1..], 0, i - 1);
    }
  }

  /** When the digits from `i` run up to `j`, the run from `i` ends where the run from `j` ends. */
  lemma {:induction false} DigitsFrom(s: bytes, i: nat, j: nat)
    requires i <= j <= |s| && forall k :: i <= k < j ==> IsDigit(s[k] as int)
    ensures Digits(s, i) == Digits(s, j)
    decreases j - i
  {
    if i < j {
      DigitsFrom(s, i + 1, j);
    }
  }

  lemma {:induction false} RunDecPoint(s: bytes)
    requires NoNul(s)
    ensures IsAccepting(Run(SDecPoint, s)) <==> DotRest(s)
  {
    if s != [] {
      StepTable(s[0] as int, SDecPoint);
      if IsDigit(s[0] as int) {
        RunFracDigit(s[1..]);
        DigitsShift(s);
        assert !ExpPart(s);
      } else if IsExponent(s[0] as int) {
        RunExponent(SDecPoint, s);
      }
    }
  }

  lemma {:induction false} RunIntZero(s: bytes)
    requires NoNul(s)
    ensures IsAccepting(Run(SIntZero, s)) <==> FracAndExp(s)
  {
    if s != [] {
      StepTable(s[0] as int, SIntZero);
      if IsExponent(s[0] as int) {
        RunExponent(SIntZero, s);
      } else if s[0] == 0x2E {
        RunDecPoint(s[1..]);
      }
    }
  }

  lemma {:induction false} RunIntDigit(q: NumberState, s: bytes)
    requires NoNul(s) && q in {SIntDigit, SIntDigit19}
    ensures IsAccepting(Run(q, s)) <==> FracAndExp(s[Digits(s, 0)..])
    decreases |s|
  {
    if s != [] {
      StepTable(s[0] as int, q);
      if IsDigit(s[0] as int) {
        RunIntDigit(SIntDigit, s[1..]);
        DigitsShift(s);
      } else if IsExponent(s[0] as int) {
        RunExponent(q, s);
      } else if s[0] == 0x2E {
        RunDecPoint(s[1..]);
      }
    }
  }

  lemma {:induction false} RunInt(q: NumberState, s: bytes)
    requires NoNul(s) && q in {SStart, SMinus}
    requires q == SStart ==> s == [] || s[0] != 0x2D
    ensures IsAccepting(Run(q, s)) <==> IntAndRest(s)
  {
    if s != [] {
      StepTable(s[0] as int, q);
      if s[0] == 0x30 {
        RunIntZero(s[1..]);
      } else if IsDigit19(s[0] as int) {
        RunIntDigit(SIntDigit19, s[1..]);
      }
    }
  }

  /**
   * The table accepts exactly the number literals: a byte string drives it
   * from SSTART to a state where a delimiter gives SDONE iff it is a literal.
   */
  lemma {:induction false} NumberLanguage(s: bytes)
    requires NoNul(s)
    ensures IsAccepting(Run(SStart, s)) <==> IsNumberLiteral(s)
  {
    if s != [] && s[0] == 0x2D {
      StepTable(s[0] as int, SStart);
      RunInt(SMinus, s[1..]);
    } else {
      RunInt(SStart, s);
    }
  }

  /** In an accepting state, any byte that cannot continue the literal ends it (SDONE). */
  lemma {:induction false} AcceptingEnds(q: NumberState, c: int)
    requires IsAccepting(q) && (0 < c < 0x100 || c == -1 || c == -2)
    requires !IsDigit(c) && !IsExponent(c) && c != 0x2E
    ensures NextNumberState(c, q) == SDone
  {
    StepTable(c, q);
  }

  /** A lone zero is a whole integer part: a digit after it ends the literal, so "00" is two tokens. */
  lemma ZeroThenDigit(c: int)
    requires IsDigit(c)
    ensures NextNumberState(c, SIntZero) == SDone
    ensures !IsNumberLiteral([0x30, c as byte])
  {
    StepTable(c, SIntZero);
    assert [0x30, c as byte][1..] == [c as byte];
  }

  /** A decimal point must be followed by a digit or an exponent; "1." is not a literal. */
  lemma DotNeedsMore()
    ensures IsNumberLiteral([0x31, 0x2E, 0x65, 0x31])
    ensures !IsNumberLiteral([0x31, 0x2E])
  {
    var a: bytes := [0x31, 0x2E, 0x65, 0x31];
    assert a[1..][Digits(a[1..], 0)..] == a[1..];
    assert a[2..][1..] == [0x31];
    var b: bytes := [0x31, 0x2E];
    assert b[1..][Digits(b[1..], 0)..] == b[1..];
  }

  // make_int

  function DigitValue(c: byte): int { c as int - 0x30 }

  /** The value of a string of decimal digits, most significant first. */
  function DecimalValue(d: bytes): (v: nat)
    requires AllDigits(d)
    decreases |d|
  {
    if d == [] then 0 else DecimalValue(d[..|d| - 1]) * 10 + DigitValue(d[|d| - 1])
  }

  /** The bytes `isspace` is true of in the "C" locale. */
  predicate IsSpace(c: byte)
  {
    c == 0x20 || 0x09 <= c <= 0x0D
  }

  function LeadingSpace(s: bytes): (n: nat)
    ensures n <= |s|
    decreases |s|
  {
    if s != [] && IsSpace(s[0]) then 1 + LeadingSpace(s[1..]) else 0
  }

  /**
   * `make_int`: `strtoll` in base 10 (leading space, an optional sign, digits),
   * then failure if anything is left over or the value is outside int64. When
   * no digit is found nothing is consumed, so only the empty string succeeds (with 0).
   */
  function MakeInt(s: bytes): (r: Option<int64>)
    ensures r.Some? && s != [] ==> exists i :: 0 <= i < |s| && IsDigit(s[i] as int)
  {
    var t := s[LeadingSpace(s)..];
    var signed := t != [] && (t[0] == 0x2B || t[0] == 0x2D);
    var d := if signed then t[1..] else t;
    var n := Digits(d, 0);
    if n == 0 then
      if s == [] then Some(0) else None
    else if n < |d| then None
    else
      var v: int := if signed && t[0] == 0x2D then 0 - DecimalValue(d) as int else DecimalValue(d) as int;
      if INT64_MIN <= v <= INT64_MAX then Some(v as int64) else None
  }
}
