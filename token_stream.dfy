/**
 * `TokenStream` of src/token-stream.cc: `scan` skips whitespace, reads the
 * lead byte and runs the scanner `select_scanner` picks for it, filling the
 * public `token`. The scanners read the `Utf8Stream` one byte at a time; an
 * exception of `getc` passes through them and leaves the token as far as it
 * was filled.
 *
 * Each scanner is first a function over the stream's `StreamView` (the
 * `...Spec` and `...Loop` functions), then a method of class `TokenStream`
 * proved to compute exactly that function.
 */
module TokenStreams {
  import opened Types
  import opened Json
  import opened Utf8Streams
  import opened Tokens
  import opened StringScanner
  import opened NumberScanner

  /** The observable state after a scan: the stream, the token, and what was thrown. */
  datatype Lex = Lex(stream: StreamView, token: Token, thrown: Option<Exception>)

  /** The size of the literal buffer of `scan_number`. */
  const NUMBER_BUFFER: nat := 1024

  /** The `do { c = getc(); } while (is_ws(c))` loop of `scan`. */
  function SkipWs(v: StreamView): (r: (StreamView, Outcome<int>))
    requires Shape(v)
    ensures Shape(r.0) && r.0.buf == v.buf && v.pos <= r.0.pos
    ensures r.1.Return? ==> !IsWs(r.1.value)
    ensures r.1.Return? && StateOf(r.0) == SGOOD ==> 0 < r.1.value < 0x100
    ensures r.1.Return? && StateOf(r.0) != SGOOD ==> r.1.value == StateOf(r.0)
    decreases |v.buf| - v.pos
  {
    var (v1, c) := GetcSpec(v);
    if c.Return? && IsWs(c.value) then SkipWs(v1) else (v1, c)
  }

  /** One iteration of the whitespace loop of `scan`: a whitespace byte moves on, anything else ends it. */
  lemma SkipWsStep(v: StreamView, v1: StreamView, c: Outcome<int>)
    requires Shape(v) && (v1, c) == GetcSpec(v)
    ensures SkipWs(v) == if c.Return? && IsWs(c.value) then SkipWs(v1) else (v1, c)
    ensures c.Return? && IsWs(c.value) ==> v1.pos == v.pos + 1
  {
    if c.Return? && IsWs(c.value) {
      assert c.value > 0;
      assert StateOf(v1) == SGOOD;
    }
  }

  /** `scan_literal`: the bytes of `lit` from index `i` on must follow; the first mismatch throws. */
  function LiteralLoop(v: StreamView, tok: Token, lit: bytes, i: nat): (r: Lex)
    requires Shape(v) && i <= |lit|
    ensures Shape(r.stream) && r.stream.buf == v.buf && r.token == tok
    decreases |lit| - i
  {
    if i == |lit| then Lex(v, tok, None)
    else
      var (v1, c) := GetcSpec(v);
      if c.Throw? then Lex(v1, tok, Some(c.exception))
      else if c.value != lit[i] as int then Lex(v1, tok, Some(RuntimeError(lit)))
      else LiteralLoop(v1, tok, lit, i + 1)
  }

  /**
   * The `while (state != SDONES)` loop of `scan_string`. A byte read while the
   * stream is not GOOD makes the string unterminated; an error state is only
   * acted on at the next iteration, after one more byte has been read.
   */
  function StringLoop(v: StreamView, tok: Token, state: StringState, u: UState): (r: Lex)
    requires Shape(v)
    requires state.IsError() || UInv(u)
    ensures Shape(r.stream) && r.stream.buf == v.buf
    ensures r.thrown.None? && r.token != ResetToken ==> r.token.kind == tok.kind
    decreases |v.buf| - v.pos
  {
    if state == SDones then Lex(v, tok, None)
    else
      var (v1, c) := GetcSpec(v);
      if c.Throw? then Lex(v1, tok, Some(c.exception))
      else
        var st := if StateOf(v1) != SGOOD then SUnterminated else state;
        if st.IsError() then Lex(v1, ResetToken, None)
        else
          var (st', u', str') := StringStep(st, u, c.value as byte, tok.str);
          StringLoop(v1, tok.(str := str'), st', u')
  }

  /** One iteration of the loop of `scan_string`, given the result of its `getc`. */
  lemma StringLoopStep(v: StreamView, tok: Token, state: StringState, u: UState, v1: StreamView, c: Outcome<int>)
    requires Shape(v) && (state.IsError() || UInv(u)) && state != SDones
    requires (v1, c) == GetcSpec(v)
    ensures c.Throw? ==> StringLoop(v, tok, state, u) == Lex(v1, tok, Some(c.exception))
    ensures c.Return? && (StateOf(v1) != SGOOD || state.IsError()) ==>
      StringLoop(v, tok, state, u) == Lex(v1, ResetToken, None)
    ensures c.Return? && StateOf(v1) == SGOOD && !state.IsError() ==>
      var (st', u', str') := StringStep(state, u, c.value as byte, tok.str);
      StringLoop(v, tok, state, u) == StringLoop(v1, tok.(str := str'), st', u')
  {
  }

  /** What `validate_number` leaves behind: the stream, its result, the C string in the buffer, and what it threw. */
  datatype NumberScan = NumberScan(stream: StreamView, kind: NumberKind, lit: bytes, thrown: Option<Exception>)

  /**
   * The `for (;;)` loop of `validate_number`. Every byte that keeps the table
   * going is stored; the byte that ends the literal is pushed back; a literal
   * that fills the buffer is cut to `size - 1` bytes and rejected.
   */
  function NumberLoop(v: StreamView, size: nat, q: NumberState, lit: bytes, kind: NumberKind): (r: NumberScan)
    requires Shape(v) && q.HasRow() && |lit| < size && NoNul(lit)
    ensures Shape(r.stream) && r.stream.buf == v.buf
    ensures |lit| <= |r.lit| < size && NoNul(r.lit) && r.lit[..|lit|] == lit
    decreases size - |lit|
  {
    var (v1, c) := GetcSpec(v);
    if c.Throw? then NumberScan(v1, kind, lit, Some(c.exception))
    else
      var q' := NextNumberState(c.value, q);
      StepNotStart(c.value, q);
      ContinuingByte(c.value, q);
      if q' == SError then NumberScan(UngetcSpec(v1), KindNone, lit, None)
      else if q' == SDone then NumberScan(UngetcSpec(v1), kind, lit, None)
      else
        var kind' := if q' == SDecPoint || q' == SE then KindFloat else kind;
        var lit' := lit + [c.value as byte];
        if |lit'| == size then NumberScan(v1, KindNone, lit, None)
        else
          var r := NumberLoop(v1, size, q', lit', kind');
          assert r.lit[..|lit|] == r.lit[..|lit'|][..|lit|];
          r
  }

  /** An iteration of `NumberLoop` whose `getc` threw ends the loop with that exception. */
  lemma NumberLoopThrows(v: StreamView, size: nat, q: NumberState, lit: bytes, kind: NumberKind, v1: StreamView, r: Outcome<int>)
    requires Shape(v) && q.HasRow() && |lit| < size && NoNul(lit)
    requires GetcSpec(v) == (v1, r) && r.Throw?
    ensures NumberLoop(v, size, q, lit, kind) == NumberScan(v1, kind, lit, Some(r.exception))
  {
  }

  /** One iteration of `NumberLoop` whose `getc` returned the byte or status `r.value`. */
  lemma NumberLoopStep(v: StreamView, size: nat, q: NumberState, lit: bytes, kind: NumberKind, v1: StreamView, r: Outcome<int>)
    requires Shape(v) && q.HasRow() && |lit| < size && NoNul(lit)
    requires GetcSpec(v) == (v1, r) && r.Return?
    ensures NextNumberState(r.value, q) != SStart
    ensures NextNumberState(r.value, q).HasRow() ==> 0 < r.value < 0x100
    ensures
      var c := r.value;
      var q' := NextNumberState(c, q);
      NumberLoop(v, size, q, lit, kind) ==
        if q' == SError then NumberScan(UngetcSpec(v1), KindNone, lit, None)
        else if q' == SDone then NumberScan(UngetcSpec(v1), kind, lit, None)
        else if |lit| + 1 == size then NumberScan(v1, KindNone, lit, None)
        else NumberLoop(v1, size, q', lit + [c as byte], if q' == SDecPoint || q' == SE then KindFloat else kind)
  {
    StepNotStart(r.value, q);
    ContinuingByte(r.value, q);
  }

  /** `validate_number(stream, buf, size)`. */
  function ValidateNumberSpec(v: StreamView, size: nat): (r: NumberScan)
    requires Shape(v) && 0 < size
    ensures Shape(r.stream) && r.stream.buf == v.buf && |r.lit| < size && NoNul(r.lit)
  {
    NumberLoop(v, size, SStart, [], KindInt)
  }

  /** `scan_number`: the literal, then its conversion; a failed conversion resets the token. */
  function ScanNumberSpec(v: StreamView, tok: Token, makeFloat: bytes -> Option<Float>): (r: Lex)
    requires Shape(v)
    ensures Shape(r.stream) && r.stream.buf == v.buf
  {
    var n := ValidateNumberSpec(v, NUMBER_BUFFER);
    if n.thrown.Some? then Lex(n.stream, tok, n.thrown)
    else
      var tok1 := tok.(numberType := n.kind);
      match n.kind
      case KindInt =>
        var m := MakeInt(n.lit);
        if m.None? then Lex(n.stream, ResetToken, None) else Lex(n.stream, tok1.(intValue := m.value), None)
      case KindFloat =>
        var f := makeFloat(n.lit);
        if f.None? then Lex(n.stream, ResetToken, None) else Lex(n.stream, tok1.(floatValue := f), None)
      case KindNone => Lex(n.stream, ResetToken, None)
  }

  /** The message of the `runtime_error` thrown for a byte no token starts with. */
  const INVALID_TOKEN: bytes := [0x69, 0x6E, 0x76, 0x61, 0x6C, 0x69, 0x64, 0x20, 0x74, 0x6F, 0x6B, 0x65, 0x6E]

  /** The call of the member function `select_scanner` returned, on a token whose kind is already set. */
  function DispatchSpec(v: StreamView, tok: Token, scanner: Scanner, makeFloat: bytes -> Option<Float>): (r: Lex)
    requires Shape(v)
    ensures Shape(r.stream) && r.stream.buf == v.buf
  {
    match scanner
    case SelectStructural => Lex(v, tok, None)
    case SelectTrue => LiteralLoop(v, tok, LiteralOf(SelectTrue), 1)
    case SelectFalse => LiteralLoop(v, tok, LiteralOf(SelectFalse), 1)
    case SelectNull => LiteralLoop(v, tok, LiteralOf(SelectNull), 1)
    case SelectString => StringLoop(v, tok, SRegular, UState(0, 0))
    case SelectNumber => ScanNumberSpec(v, tok, makeFloat)
    case SelectInvalid => Lex(v, tok, Some(RuntimeError(INVALID_TOKEN)))
  }

  /** `scan`: reset the token, skip whitespace, stop at EOF or on a BAD stream, otherwise scan a token. */
  function ScanSpec(v: StreamView, makeFloat: bytes -> Option<Float>): (r: Lex)
    requires Shape(v)
    ensures Shape(r.stream) && r.stream.buf == v.buf
  {
    var skipped := SkipWs(v);
    AfterSkip(skipped.0, skipped.1, makeFloat)
  }

  /** The part of `scan` after the whitespace loop, given the byte (or status) that ended it. */
  function AfterSkip(v: StreamView, c: Outcome<int>, makeFloat: bytes -> Option<Float>): (r: Lex)
    requires Shape(v)
    requires c.Return? && StateOf(v) == SGOOD ==> 0 < c.value < 0x100
    requires c.Return? && StateOf(v) != SGOOD ==> c.value == StateOf(v)
    ensures Shape(r.stream) && r.stream.buf == v.buf
  {
    if c.Throw? then Lex(v, ResetToken, Some(c.exception))
    else if c.value == SEOF then Lex(v, ResetToken, None)
    else if StateOf(v) == SBAD then Lex(v, ResetToken, None)
    else
      var sel := Select(c.value as byte);
      var v2 := if sel.unget then UngetcSpec(v) else v;
      DispatchSpec(v2, ResetToken.(kind := sel.kind), sel.scanner, makeFloat)
  }

  /** The C string held by a buffer: the bytes before its first NUL. */
  function CString(a: seq<byte>): (s: bytes)
    ensures |s| <= |a| && s == a[..|s|] && NoNul(s)
    decreases |a|
  {
    if a == [] || a[0] == 0 then [] else [a[0]] + CString(a[1..])
  }

  lemma {:induction false} CStringOf(a: seq<byte>, s: bytes)
    requires NoNul(s) && |s| < |a| && a[..|s|] == s && a[|s|] == 0
    ensures CString(a) == s
    decreases |s|
  {
    if s != [] {
      assert a[1..][..|s| - 1] == s[1..];
      CStringOf(a[1..], s[1..]);
    }
  }

  /**
   * `validate_number`: reads a number literal into the `size`-byte buffer
   * `buf`, leaving it NUL-terminated unless `getc` threw.
   */
  method ValidateNumber(stream: Utf8Stream, buf: array<byte>, size: nat) returns (kind: NumberKind, thrown: Option<Exception>)
    requires stream.Valid() && buf.Length == size && 0 < size
    modifies stream, stream.utf8, buf
    ensures stream.Valid()
    ensures var n := ValidateNumberSpec(old(stream.View()), size);
            stream.View() == n.stream && thrown == n.thrown && (thrown.None? ==> kind == n.kind) &&
            buf[..|n.lit|] == n.lit && (thrown.None? ==> buf[|n.lit|] == 0)
  {
    var state := SStart;
    var res := KindInt;
    var i := 0;
    ghost var lit: bytes := [];
    while true
      invariant stream.Valid() && state.HasRow() && 0 <= i < size && NoNul(lit) && buf[..i] == lit
      invariant NumberLoop(stream.View(), size, state, lit, res) == ValidateNumberSpec(old(stream.View()), size)
      decreases size - i
    {
      ghost var v := stream.View();
      var r := stream.Getc();
      if r.Throw? {
        NumberLoopThrows(v, size, state, lit, res, stream.View(), r);
        return res, Some(r.exception);
      }
      NumberLoopStep(v, size, state, lit, res, stream.View(), r);
      var c := r.value;
      state := NumberStateOf(c, state);
      if state == SError || state == SDone {
        if state == SError {
          res := KindNone;
        }
        buf[i] := 0;
        stream.Ungetc();
        return res, None;
      }
      if state == SDecPoint || state == SE {
        res := KindFloat;
      }
      buf[i] := c as byte;
      i := i + 1;
      if i == size {
        buf[i - 1] := 0;
        return KindNone, None;
      }
      lit := lit + [c as byte];
    }
  }

  /** `TokenStream`: a lexer over a `Utf8Stream`; `makeFloat` stands for `make_float` (a `strtold`). */
  class TokenStream {
    const stream: Utf8Stream
    const makeFloat: bytes -> Option<Float>
    var token: Token

    ghost predicate Valid()
      reads this, stream, stream.utf8
    {
      stream.Valid()
    }

    constructor (s: Utf8Stream, makeFloat: bytes -> Option<Float>)
      requires s.Valid()
      ensures Valid() && stream == s && this.makeFloat == makeFloat && token == ResetToken
    {
      stream := s;
      this.makeFloat := makeFloat;
      token := ResetToken;
    }

    /** `select_scanner`: records the kind in the token and pushes a number's lead byte back. */
    method SelectScanner(c: byte) returns (scanner: Scanner)
      requires Valid()
      modifies this, stream
      ensures Valid()
      ensures scanner == Select(c).scanner && token == old(token).(kind := Select(c).kind)
      ensures stream.View() == if Select(c).unget then UngetcSpec(old(stream.View())) else old(stream.View())
    {
      var kind;
      match c {
        case 0x5B => scanner, kind := SelectStructural, BeginArray;
        case 0x7B => scanner, kind := SelectStructural, BeginObject;
        case 0x5D => scanner, kind := SelectStructural, EndArray;
        case 0x7D => scanner, kind := SelectStructural, EndObject;
        case 0x3A => scanner, kind := SelectStructural, NameSeparator;
        case 0x2C => scanner, kind := SelectStructural, ValueSeparator;
        case 0x74 => scanner, kind := SelectTrue, TrueLiteral;
        case 0x6E => scanner, kind := SelectNull, NullLiteral;
        case 0x66 => scanner, kind := SelectFalse, FalseLiteral;
        case 0x22 => scanner, kind := SelectString, String;
        case _ =>
          if c == 0x2D || 0x30 <= c <= 0x39 {
            stream.Ungetc();
            scanner, kind := SelectNumber, Number;
          } else {
            scanner, kind := SelectInvalid, TokenType.Invalid;
          }
      }
      token := token.(kind := kind);
    }

    /** `scan_literal(lit)`: the lead byte is already read. */
    method ScanLiteral(lit: bytes) returns (thrown: Option<Exception>)
      requires Valid() && 1 <= |lit|
      modifies stream, stream.utf8
      ensures Valid()
      ensures Lex(stream.View(), token, thrown) == LiteralLoop(old(stream.View()), token, lit, 1)
    {
      var i := 1;
      while i < |lit|
        invariant Valid() && 1 <= i <= |lit|
        invariant LiteralLoop(stream.View(), token, lit, i) == LiteralLoop(old(stream.View()), token, lit, 1)
      {
        var c := stream.Getc();
        if c.Throw? {
          return Some(c.exception);
        }
        if c.value != lit[i] as int {
          return Some(RuntimeError(lit));
        }
        i := i + 1;
      }
      return None;
    }

    /** `scan_string`: the opening quote is already read. */
    method ScanString() returns (thrown: Option<Exception>)
      requires Valid()
      modifies this, stream, stream.utf8
      ensures Valid()
      ensures Lex(stream.View(), token, thrown) == StringLoop(old(stream.View()), old(token), SRegular, UState(0, 0))
    {
      var state := SRegular;
      var unicode := new UEscape();
      while state != SDones
        invariant Valid() && fresh(unicode)
        invariant state.IsError() || UInv(unicode.Get())
        invariant StringLoop(stream.View(), token, state, unicode.Get()) ==
                  StringLoop(old(stream.View()), old(token), SRegular, UState(0, 0))
        decreases |stream.buf| - stream.pos
      {
        ghost var v := stream.View();
        var r := stream.Getc();
        StringLoopStep(v, token, state, unicode.Get(), stream.View(), r);
        if r.Throw? {
          return Some(r.exception);
        }
        var c := r.value;
        if stream.State() != SGOOD {
          state := SUnterminated;
        }
        if state == SRegular {
          var (st, out) := ScanRegular(c as byte, token.str);
          state, token := st, token.(str := out);
        } else if state == SEscaped {
          var (st, out) := ScanEscaped(c as byte, token.str);
          state, token := st, token.(str := out);
        } else if state == SUescape {
          var st, out := unicode.Scan(c as byte, token.str);
          state, token := st, token.(str := out);
        } else {
          // one of the error states
          token := ResetToken;
          return None;
        }
      }
      return None;
    }

    /** `scan_number`: the lead byte was pushed back, so the literal is read whole. */
    method ScanNumber() returns (thrown: Option<Exception>)
      requires Valid()
      modifies this, stream, stream.utf8
      ensures Valid()
      ensures Lex(stream.View(), token, thrown) == ScanNumberSpec(old(stream.View()), old(token), makeFloat)
    {
      var buf := new byte[NUMBER_BUFFER];
      ghost var n := ValidateNumberSpec(stream.View(), NUMBER_BUFFER);
      var kind;
      kind, thrown := ValidateNumber(stream, buf, NUMBER_BUFFER);
      if thrown.Some? {
        return;
      }
      CStringOf(buf[..], n.lit);
      token := token.(numberType := kind);
      match kind {
        case KindInt =>
          var m := MakeInt(CString(buf[..]));
          if m.None? {
            token := ResetToken;
            return;
          }
          token := token.(intValue := m.value);
        case KindFloat =>
          var f := makeFloat(CString(buf[..]));
          if f.None? {
            token := ResetToken;
            return;
          }
          token := token.(floatValue := f);
        case KindNone =>
          token := ResetToken;
      }
    }

    /** `scan`: reads the next token into `token`. */
    method Scan() returns (thrown: Option<Exception>)
      requires Valid()
      modifies this, stream, stream.utf8
      ensures Valid()
      ensures Lex(stream.View(), token, thrown) == ScanSpec(old(stream.View()), makeFloat)
    {
      token := ResetToken;
      ghost var v0 := stream.View();
      var c := stream.Getc();
      SkipWsStep(v0, stream.View(), c);
      while c.Return? && IsWs(c.value)
        invariant Valid() && token == ResetToken && stream.buf == v0.buf
        invariant SkipWs(v0) == if c.Return? && IsWs(c.value) then SkipWs(stream.View()) else (stream.View(), c)
        decreases |stream.buf| - stream.pos + (if c.Return? && IsWs(c.value) then 1 else 0)
      {
        ghost var before := stream.View();
        c := stream.Getc();
        SkipWsStep(before, stream.View(), c);
      }
      ghost var v1 := stream.View();
      assert ScanSpec(v0, makeFloat) == AfterSkip(v1, c, makeFloat) by {
        assert SkipWs(v0) == (v1, c);
      }
      if c.Throw? {
        return Some(c.exception);
      }
      if c.value == SEOF {
        return None;
      }
      if stream.State() == SBAD {
        return None;
      }
      var scanner := SelectScanner(c.value as byte);
      ghost var sel := Select(c.value as byte);
      assert AfterSkip(v1, c, makeFloat) == DispatchSpec(stream.View(), token, sel.scanner, makeFloat);
      thrown := Dispatch(scanner);
    }

    /** `(this->*scanner)()`: runs the scanner `select_scanner` chose. */
    method Dispatch(scanner: Scanner) returns (thrown: Option<Exception>)
      requires Valid()
      modifies this, stream, stream.utf8
      ensures Valid()
      ensures Lex(stream.View(), token, thrown) == DispatchSpec(old(stream.View()), old(token), scanner, makeFloat)
    {
      match scanner {
        case SelectStructural =>
          thrown := None;
        case SelectTrue =>
          thrown := ScanLiteral(LiteralOf(SelectTrue));
        case SelectFalse =>
          thrown := ScanLiteral(LiteralOf(SelectFalse));
        case SelectNull =>
          thrown := ScanLiteral(LiteralOf(SelectNull));
        case SelectString =>
          thrown := ScanString();
        case SelectNumber =>
          thrown := ScanNumber();
        case SelectInvalid =>
          thrown := Some(RuntimeError(INVALID_TOKEN));
      }
    }
  }
}
