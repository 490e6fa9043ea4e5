/**
 * What `TokenStream::scan` of src/token-stream.cc does with a whole token,
 * stated over a stream whose next bytes all arrive without a stream error
 * (`Clean`): the whitespace it skips, where structural tokens, literals,
 * strings and numbers end, and what the token then holds. The last lemmas
 * put these together with the serialiser of src/iostream.cc: what `quote`
 * and the integer printer write is read back by `scan` as the same string or
 * integer.
 */
module LexerProperties {
  import opened Types
  import opened Utf8Streams
  import opened Utf8
  import opened Tokens
  import opened StringScanner
  import opened NumberScanner
  import opened TokenStreams
  import Json
  import Output
  import RoundTrips

  /** No more bytes: `scan` sets EOF and returns with the token reset. */
  lemma ScanAtEnd(v: StreamView, makeFloat: bytes -> Option<Json.Float>)
    requires Shape(v) && !v.bad && v.pos == |v.buf|
    ensures ScanSpec(v, makeFloat) == Lex(v.(eof := true), ResetToken, None)
  {
  }

  /** A BAD stream: `scan` returns at once with the token reset. */
  lemma ScanOnBad(v: StreamView, makeFloat: bytes -> Option<Json.Float>)
    requires Shape(v) && v.bad
    ensures ScanSpec(v, makeFloat) == Lex(v, ResetToken, None)
  {
  }

  /** Reading from a stream that keeps its invariant does not disturb `Advance` by nothing. */
  lemma AdvanceNone(v: StreamView)
    requires Inv(v) && !v.bad
    ensures Advance(v, 0) == v
  {
  }

  /** A stream that keeps its invariant, is not BAD, and delivers every byte before `m`. */
  ghost predicate CleanAhead(v: StreamView, m: nat)
  {
    Inv(v) && !v.bad && v.pos <= m && Clean(v.buf, m)
  }

  /** Reading a byte of a clean stream: the byte itself, and the stream moves on by one. */
  lemma ReadClean(v: StreamView, m: nat)
    requires CleanAhead(v, m) && v.pos < m
    ensures GetcSpec(v) == (Advance(v, 1), Json.Return(v.buf[v.pos] as int))
    ensures CleanAhead(Advance(v, 1), m) && Advance(v, 1).pos == v.pos + 1 && Advance(v, 1).buf == v.buf
  {
    CleanPrefix(v.buf, m, v.pos + 1);
    GetcClean(v);
  }

  /** A byte that is not whitespace ends the whitespace loop of `scan`. */
  lemma SkipWsLast(v: StreamView, m: nat)
    requires CleanAhead(v, m) && v.pos < m && !IsWs(v.buf[v.pos] as int)
    ensures SkipWs(v) == (Advance(v, 1), Json.Return(v.buf[v.pos] as int)) && CleanAhead(Advance(v, 1), m)
  {
    ReadClean(v, m);
    SkipWsStep(v, Advance(v, 1), Json.Return(v.buf[v.pos] as int));
  }

  /** A whitespace byte is skipped, and the whitespace after it is still ahead. */
  lemma SkipWsOne(v: StreamView, k: nat, m: nat)
    requires CleanAhead(v, m) && 0 < k && v.pos + k <= m
    requires forall j :: v.pos <= j < v.pos + k ==> IsWs(v.buf[j] as int)
    ensures var v1 := Advance(v, 1);
      CleanAhead(v1, m) && v1.pos == v.pos + 1 && v1.buf == v.buf && v1.pos + (k - 1) <= m &&
      (forall j :: v1.pos <= j < v1.pos + (k - 1) ==> IsWs(v1.buf[j] as int)) &&
      SkipWs(v) == SkipWs(v1)
  {
    ReadClean(v, m);
    SkipWsStep(v, Advance(v, 1), Json.Return(v.buf[v.pos] as int));
  }

  /** The whitespace loop over the whitespace bytes from `pos` up to `e`, ended by the byte at `e`. */
  lemma {:induction false} SkipWsUntil(v: StreamView, e: nat, m: nat)
    requires CleanAhead(v, m) && v.pos <= e < m
    requires forall j :: v.pos <= j < e ==> IsWs(v.buf[j] as int)
    requires !IsWs(v.buf[e] as int)
    ensures SkipWs(v) == (Advance(v, e - v.pos + 1), Json.Return(v.buf[e] as int))
    ensures CleanAhead(Advance(v, e - v.pos + 1), m)
    decreases e - v.pos
  {
    if e == v.pos {
      SkipWsLast(v, m);
    } else {
      SkipWsOne(v, e - v.pos, m);
      SkipWsUntil(Advance(v, 1), e, m);
      AdvanceAdd(v, 1, e - v.pos);
    }
  }

  /**
   * The whitespace loop reads the `k` whitespace bytes at `pos` and the byte
   * after them, and stops there: only space, tab, CR and LF are skipped.
   */
  lemma SkipWsRun(v: StreamView, k: nat, m: nat)
    requires CleanAhead(v, m) && v.pos + k < m
    requires forall j :: v.pos <= j < v.pos + k ==> IsWs(v.buf[j] as int)
    requires !IsWs(v.buf[v.pos + k] as int)
    ensures SkipWs(v) == (Advance(v, k + 1), Json.Return(v.buf[v.pos + k] as int))
    ensures CleanAhead(Advance(v, k + 1), m)
  {
    SkipWsUntil(v, v.pos + k, m);
  }

  /** At the end of the buffer the whitespace loop meets EOF at once. */
  lemma SkipWsAtEnd(v: StreamView)
    requires CleanAhead(v, |v.buf|) && v.pos == |v.buf|
    ensures SkipWs(v) == (Advance(v, 0).(eof := true), Json.Return(SEOF))
  {
    AdvanceNone(v);
  }

  /** The whitespace loop run to EOF from one byte on, put back in front of that byte. */
  lemma SkipWsEndPost(v: StreamView)
    requires CleanAhead(v, |v.buf|) && v.pos < |v.buf|
    requires var v1 := Advance(v, 1);
      CleanAhead(v1, |v.buf|) && v1.pos == v.pos + 1 && v1.buf == v.buf &&
      SkipWs(v) == SkipWs(v1) && SkipWs(v1) == (Advance(v1, |v1.buf| - v1.pos).(eof := true), Json.Return(SEOF))
    ensures SkipWs(v) == (Advance(v, |v.buf| - v.pos).(eof := true), Json.Return(SEOF))
  {
    ReadClean(v, |v.buf|);
    AdvanceAdd(v, 1, |v.buf| - v.pos - 1);
  }

  /** Whitespace up to the end of the buffer: the loop reads all of it, then meets EOF. */
  lemma {:induction false} SkipWsToEnd(v: StreamView)
    requires CleanAhead(v, |v.buf|)
    requires forall j :: v.pos <= j < |v.buf| ==> IsWs(v.buf[j] as int)
    ensures SkipWs(v) == (Advance(v, |v.buf| - v.pos).(eof := true), Json.Return(SEOF))
    decreases |v.buf| - v.pos
  {
    if v.pos == |v.buf| {
      SkipWsAtEnd(v);
    } else {
      SkipWsOne(v, |v.buf| - v.pos, |v.buf|);
      SkipWsToEnd(Advance(v, 1));
      SkipWsEndPost(v);
    }
  }

  /** Only whitespace left: `scan` ends at EOF with the token reset and nothing thrown. */
  lemma ScanWhitespaceOnly(v: StreamView, makeFloat: bytes -> Option<Json.Float>)
    requires CleanAhead(v, |v.buf|)
    requires forall j :: v.pos <= j < |v.buf| ==> IsWs(v.buf[j] as int)
    ensures ScanSpec(v, makeFloat) == Lex(Advance(v, |v.buf| - v.pos).(eof := true), ResetToken, None)
  {
    SkipWsToEnd(v);
  }

  /** The part of `scan` after the whitespace loop, on a GOOD stream and the byte that ended the loop. */
  lemma AfterLead(v: StreamView, c: byte, makeFloat: bytes -> Option<Json.Float>)
    requires Inv(v) && !v.bad && !v.eof && 1 <= v.pos && c != 0
    ensures var sel := Select(c);
      AfterSkip(v, Json.Return(c as int), makeFloat) ==
        DispatchSpec(if sel.unget then v.(pos := v.pos - 1) else v, ResetToken.(kind := sel.kind), sel.scanner, makeFloat)
  {
    assert StateOf(v) == SGOOD;
    assert UngetcSpec(v) == v.(pos := v.pos - 1);
  }

  /**
   * A byte that is not whitespace after `k` whitespace bytes: `scan` hands
   * the stream past it (or, for a number, with it pushed back) to the
   * scanner `select_scanner` picks, on a token of the kind it picks.
   */
  lemma ScanLead(v: StreamView, k: nat, m: nat, makeFloat: bytes -> Option<Json.Float>)
    requires CleanAhead(v, m) && v.pos + k < m
    requires forall j :: v.pos <= j < v.pos + k ==> IsWs(v.buf[j] as int)
    requires !IsWs(v.buf[v.pos + k] as int)
    ensures var sel := Select(v.buf[v.pos + k]);
      var v1 := Advance(v, k + 1);
      CleanAhead(v1, m) && v1.pos == v.pos + k + 1 && v1.buf == v.buf &&
      ScanSpec(v, makeFloat) ==
        DispatchSpec(if sel.unget then v1.(pos := v.pos + k) else v1, ResetToken.(kind := sel.kind), sel.scanner, makeFloat)
  {
    SkipWsRun(v, k, m);
    AfterLead(Advance(v, k + 1), v.buf[v.pos + k], makeFloat);
  }

  /**
   * A structural byte after `k` whitespace bytes: the token has that byte's
   * kind and nothing more is read.
   */
  lemma ScanStructural(v: StreamView, k: nat, makeFloat: bytes -> Option<Json.Float>)
    requires CleanAhead(v, v.pos + k + 1)
    requires forall j :: v.pos <= j < v.pos + k ==> IsWs(v.buf[j] as int)
    requires v.buf[v.pos + k] in {0x5B, 0x7B, 0x5D, 0x7D, 0x3A, 0x2C}
    ensures var r := ScanSpec(v, makeFloat);
      r.stream == Advance(v, k + 1) && r.thrown == None &&
      r.token == ResetToken.(kind := r.token.kind) && TypeOf(v.buf[v.pos + k]) == Some(r.token.kind)
  {
    SkipWsRun(v, k, v.pos + k + 1);
  }

  /** A byte no token starts with: the token stays INVALID and "invalid token" is thrown. */
  lemma ScanInvalidByte(v: StreamView, k: nat, makeFloat: bytes -> Option<Json.Float>)
    requires CleanAhead(v, v.pos + k + 1)
    requires forall j :: v.pos <= j < v.pos + k ==> IsWs(v.buf[j] as int)
    requires var c := v.buf[v.pos + k];
      c !in {0x5B, 0x7B, 0x5D, 0x7D, 0x3A, 0x2C, 0x74, 0x66, 0x6E, 0x22, 0x2D} && !(0x30 <= c <= 0x39) && !IsWs(c as int)
    ensures ScanSpec(v, makeFloat) == Lex(Advance(v, k + 1), ResetToken, Some(Json.RuntimeError(INVALID_TOKEN)))
  {
    SkipWsRun(v, k, v.pos + k + 1);
  }

  /** `scan_literal` over bytes that spell the rest of the literal reads exactly those bytes. */
  lemma {:induction false} LiteralRun(v: StreamView, tok: Token, lit: bytes, i: nat, m: nat)
    requires i <= |lit| && CleanAhead(v, m) && v.pos + (|lit| - i) <= m
    requires v.buf[v.pos..v.pos + (|lit| - i)] == lit[i..]
    ensures LiteralLoop(v, tok, lit, i) == Lex(Advance(v, |lit| - i), tok, None)
    decreases |lit| - i
  {
    if i == |lit| {
      AdvanceNone(v);
    } else {
      assert v.buf[v.pos] == lit[i];
      ReadClean(v, m);
      var v1 := Advance(v, 1);
      assert v1.buf[v1.pos..v1.pos + (|lit| - (i + 1))] == lit[i + 1..];
      LiteralRun(v1, tok, lit, i + 1, m);
      AdvanceAdd(v, 1, |lit| - i - 1);
    }
  }

  /** The first byte and the rest of a slice of the buffer that spells `lit[i..j]`. */
  lemma SliceStep(buf: bytes, p: nat, lit: bytes, i: nat, j: nat)
    requires i < j <= |lit| && p + (j - i) <= |buf| && buf[p..p + (j - i)] == lit[i..j]
    ensures buf[p] == lit[i] && buf[p + 1..p + (j - i)] == lit[i + 1..j]
  {
    assert buf[p..p + (j - i)][0] == lit[i..j][0];
    assert buf[p..p + (j - i)][1..] == buf[p + 1..p + (j - i)];
    assert lit[i..j][1..] == lit[i + 1..j];
  }

  /**
   * The first byte that differs from the literal is read and makes
   * `scan_literal` throw, with the literal as the message.
   */
  lemma {:induction false} LiteralMismatch(v: StreamView, tok: Token, lit: bytes, i: nat, j: nat, m: nat)
    requires i <= j < |lit| && CleanAhead(v, m) && v.pos + (j - i) < m
    requires v.buf[v.pos..v.pos + (j - i)] == lit[i..j] && v.buf[v.pos + (j - i)] != lit[j]
    ensures LiteralLoop(v, tok, lit, i) == Lex(Advance(v, j - i + 1), tok, Some(Json.RuntimeError(lit)))
    decreases j - i
  {
    ReadClean(v, m);
    var v1 := Advance(v, 1);
    if i < j {
      SliceStep(v.buf, v.pos, lit, i, j);
      LiteralMismatch(v1, tok, lit, i + 1, j, m);
      AdvanceAdd(v, 1, j - i);
    }
  }

  /** The first byte and the rest of a slice that spells `lit`. */
  lemma SliceTail(buf: bytes, i: nat, lit: bytes)
    requires lit != [] && i + |lit| <= |buf| && buf[i..i + |lit|] == lit
    ensures buf[i] == lit[0] && buf[i + 1..i + |lit|] == lit[1..]
  {
    assert buf[i..i + |lit|][1..] == buf[i + 1..i + |lit|];
  }

  /** The lead byte of each literal selects that literal's scanner, with the byte's own kind. */
  lemma LiteralLead(sc: Scanner, v: StreamView, tok: Token, makeFloat: bytes -> Option<Json.Float>)
    requires sc in {SelectTrue, SelectFalse, SelectNull} && Shape(v)
    ensures var c := LiteralOf(sc)[0];
      var sel := Select(c);
      sel.scanner == sc && !sel.unget && TypeOf(c) == Some(sel.kind) &&
      DispatchSpec(v, tok, sc, makeFloat) == LiteralLoop(v, tok, LiteralOf(sc), 1)
  {
  }

  /** The literal scanner run from just after a literal's lead byte. */
  lemma LiteralTail(v: StreamView, k: nat, v1: StreamView, sc: Scanner, tok: Token)
    requires sc in {SelectTrue, SelectFalse, SelectNull}
    requires CleanAhead(v, v.pos + k + |LiteralOf(sc)|)
    requires v.buf[v.pos + k..v.pos + k + |LiteralOf(sc)|] == LiteralOf(sc)
    requires v1 == Advance(v, k + 1) && CleanAhead(v1, v.pos + k + |LiteralOf(sc)|) && v1.pos == v.pos + k + 1 && v1.buf == v.buf
    ensures LiteralLoop(v1, tok, LiteralOf(sc), 1) == Lex(Advance(v, k + |LiteralOf(sc)|), tok, None)
  {
    var lit := LiteralOf(sc);
    SliceTail(v.buf, v.pos + k, lit);
    LiteralRun(v1, tok, lit, 1, v.pos + k + |lit|);
    AdvanceAdd(v, k + 1, |lit| - 1);
  }

  /**
   * `true`, `false` or `null` after `k` whitespace bytes: the token has the
   * literal's kind and the stream stands right after the literal, whatever
   * follows it.
   */
  lemma ScanLiteral(v: StreamView, k: nat, sc: Scanner, makeFloat: bytes -> Option<Json.Float>)
    requires sc in {SelectTrue, SelectFalse, SelectNull}
    requires CleanAhead(v, v.pos + k + |LiteralOf(sc)|)
    requires forall j :: v.pos <= j < v.pos + k ==> IsWs(v.buf[j] as int)
    requires v.buf[v.pos + k..v.pos + k + |LiteralOf(sc)|] == LiteralOf(sc)
    ensures var lit := LiteralOf(sc);
      ScanSpec(v, makeFloat) == Lex(Advance(v, k + |lit|), ResetToken.(kind := Select(lit[0]).kind), None)
  {
    var m := v.pos + k + |LiteralOf(sc)|;
    SliceTail(v.buf, v.pos + k, LiteralOf(sc));
    ScanLead(v, k, m, makeFloat);
    var tok := ResetToken.(kind := Select(LiteralOf(sc)[0]).kind);
    LiteralTail(v, k, Advance(v, k + 1), sc, tok);
    LiteralLead(sc, Advance(v, k + 1), tok, makeFloat);
  }

  /** `Decode` from offset `p` of a buffer: one step of the machine, then the rest from `p + 1`. */
  lemma DecodeTail(state: StringState, u: UState, buf: bytes, p: nat, str: bytes)
    requires state != SDones && !state.IsError() && UInv(u) && p < |buf|
    ensures var step := StringStep(state, u, buf[p], str);
      (step.0.IsError() || step.0 == SDones || UInv(step.1)) &&
      var r := Decode(step.0, step.1, buf[p + 1..], step.2);
      Decode(state, u, buf[p..], str) == (r.0, r.1 + 1, r.2)
  {
    assert buf[p..][0] == buf[p] && buf[p..][1..] == buf[p + 1..];
  }

  /** One byte of the loop of `scan_string` on a clean stream, in a state that is not an error. */
  lemma StringOne(v: StreamView, tok: Token, state: StringState, u: UState, m: nat)
    requires CleanAhead(v, m) && v.pos < m && state in {SRegular, SEscaped, SUescape} && UInv(u)
    ensures CleanAhead(Advance(v, 1), m) && Advance(v, 1).pos == v.pos + 1 && Advance(v, 1).buf == v.buf
    ensures var step := StringStep(state, u, v.buf[v.pos], tok.str);
      (step.0.IsError() || UInv(step.1)) &&
      StringLoop(v, tok, state, u) == StringLoop(Advance(v, 1), tok.(str := step.2), step.0, step.1)
  {
    ReadClean(v, m);
    StringLoopStep(v, tok, state, u, Advance(v, 1), Json.Return(v.buf[v.pos] as int));
  }

  /** The string machine reaches SDONES only from a state that is not an error. */
  lemma DecodeDone(state: StringState, u: UState, s: bytes, str: bytes)
    requires state.IsError() || state == SDones || UInv(u)
    requires Decode(state, u, s, str).0 == SDones
    ensures !state.IsError()
  {
  }

  /** What the loop of `scan_string` needs after one byte: the machine is not in error and decodes the rest. */
  lemma StringPre(v: StreamView, tok: Token, state: StringState, u: UState, n: nat, str: bytes, m: nat)
    requires CleanAhead(v, m) && v.pos + n <= m && !state.IsError() && UInv(u) && state != SDones
    requires Decode(state, u, v.buf[v.pos..], tok.str) == (SDones, n, str)
    ensures var step := StringStep(state, u, v.buf[v.pos], tok.str);
      CleanAhead(Advance(v, 1), m) && Advance(v, 1).pos + (n - 1) <= m && 0 < n && !step.0.IsError() && UInv(step.1) &&
      Decode(step.0, step.1, Advance(v, 1).buf[Advance(v, 1).pos..], step.2) == (SDones, n - 1, str)
  {
    var step := StringStep(state, u, v.buf[v.pos], tok.str);
    var rest := v.buf[v.pos + 1..];
    assert Decode(step.0, step.1, rest, step.2) == (SDones, n - 1, str) && 0 < n by {
      DecodeTail(state, u, v.buf, v.pos, tok.str);
    }
    DecodeDone(step.0, step.1, rest, step.2);
    ReadClean(v, m);
  }

  /** The loop of `scan_string` from one byte on, put back in front of that byte. */
  lemma StringPost(v: StreamView, tok: Token, state: StringState, u: UState, n: nat, str: bytes, m: nat)
    requires CleanAhead(v, m) && v.pos + n <= m && !state.IsError() && UInv(u) && state != SDones && 0 < n
    requires var step := StringStep(state, u, v.buf[v.pos], tok.str);
      CleanAhead(Advance(v, 1), m) && !step.0.IsError() && UInv(step.1) &&
      StringLoop(Advance(v, 1), tok.(str := step.2), step.0, step.1) == Lex(Advance(Advance(v, 1), n - 1), tok.(str := step.2).(str := str), None)
    ensures StringLoop(v, tok, state, u) == Lex(Advance(v, n), tok.(str := str), None)
  {
    StringOne(v, tok, state, u, m);
    AdvanceAdd(v, 1, n - 1);
  }

  /**
   * The loop of `scan_string` over bytes on which the string machine reaches
   * SDONES after `n` of them: it reads exactly those and keeps the string the
   * machine built.
   */
  lemma {:induction false} StringRun(v: StreamView, tok: Token, state: StringState, u: UState, n: nat, str: bytes, m: nat)
    requires CleanAhead(v, m) && v.pos + n <= m && !state.IsError() && UInv(u)
    requires Decode(state, u, v.buf[v.pos..], tok.str) == (SDones, n, str)
    ensures StringLoop(v, tok, state, u) == Lex(Advance(v, n), tok.(str := str), None)
    decreases n
  {
    if state == SDones {
      AdvanceNone(v);
    } else {
      StringPre(v, tok, state, u, n, str, m);
      var step := StringStep(state, u, v.buf[v.pos], tok.str);
      StringRun(Advance(v, 1), tok.(str := step.2), step.0, step.1, n - 1, str, m);
      StringPost(v, tok, state, u, n, str, m);
    }
  }

  /** The string machine never steps into the unterminated state: only running out of bytes does. */
  lemma StepNotUnterminated(state: StringState, u: UState, c: byte, str: bytes)
    requires state in {SRegular, SEscaped, SUescape} && UInv(u)
    ensures StringStep(state, u, c, str).0 != SUnterminated
  {
  }

  /** What the loop of `scan_string` needs after one byte on the way to an error state. */
  lemma StringErrorPre(v: StreamView, tok: Token, state: StringState, u: UState, n: nat, err: StringState, m: nat)
    requires CleanAhead(v, m) && v.pos + n < m && state in {SRegular, SEscaped, SUescape} && UInv(u)
    requires Decode(state, u, v.buf[v.pos..], tok.str).0 == err && Decode(state, u, v.buf[v.pos..], tok.str).1 == n
    ensures var step := StringStep(state, u, v.buf[v.pos], tok.str);
      var v1 := Advance(v, 1);
      CleanAhead(v1, m) && v1.pos + (n - 1) < m && 0 < n && (step.0.IsError() || UInv(step.1)) &&
      Decode(step.0, step.1, v1.buf[v1.pos..], step.2).0 == err && Decode(step.0, step.1, v1.buf[v1.pos..], step.2).1 == n - 1
  {
    DecodeTail(state, u, v.buf, v.pos, tok.str);
    ReadClean(v, m);
  }

  /** The loop of `scan_string` from one byte on, put back in front of that byte, when it ends in an error. */
  lemma StringErrorPost(v: StreamView, tok: Token, state: StringState, u: UState, n: nat, m: nat)
    requires CleanAhead(v, m) && v.pos + n < m && state in {SRegular, SEscaped, SUescape} && UInv(u)
    requires var step := StringStep(state, u, v.buf[v.pos], tok.str);
      CleanAhead(Advance(v, 1), m) && (step.0.IsError() || UInv(step.1)) &&
      StringLoop(Advance(v, 1), tok.(str := step.2), step.0, step.1) == Lex(Advance(Advance(v, 1), n), ResetToken, None)
    ensures StringLoop(v, tok, state, u) == Lex(Advance(v, n + 1), ResetToken, None)
  {
    var step := StringStep(state, u, v.buf[v.pos], tok.str);
    assert StringLoop(v, tok, state, u) == StringLoop(Advance(v, 1), tok.(str := step.2), step.0, step.1) by {
      StringOne(v, tok, state, u, m);
    }
    assert Advance(Advance(v, 1), n) == Advance(v, n + 1) by {
      AdvanceAdd(v, 1, n);
    }
  }

  /** In an error state the loop of `scan_string` reads one more byte of a clean stream, then resets the token. */
  lemma StringErrorLast(v: StreamView, tok: Token, state: StringState, u: UState, m: nat)
    requires CleanAhead(v, m) && v.pos < m && state.IsError()
    ensures StringLoop(v, tok, state, u) == Lex(Advance(v, 1), ResetToken, None)
  {
    ReadClean(v, m);
    StringLoopStep(v, tok, state, u, Advance(v, 1), Json.Return(v.buf[v.pos] as int));
  }

  /**
   * The loop of `scan_string` over bytes on which the string machine reaches
   * an error state after `n` of them: it reads one byte more, the one at
   * `pos + n`, and only then gives up with the token reset and nothing
   * thrown. The string built so far is lost.
   */
  lemma {:induction false} StringErrorRun(v: StreamView, tok: Token, state: StringState, u: UState, n: nat, err: StringState, m: nat)
    requires CleanAhead(v, m) && v.pos + n < m && (state.IsError() || UInv(u))
    requires Decode(state, u, v.buf[v.pos..], tok.str).0 == err && Decode(state, u, v.buf[v.pos..], tok.str).1 == n
    requires err.IsError() && err != SUnterminated
    ensures StringLoop(v, tok, state, u) == Lex(Advance(v, n + 1), ResetToken, None)
    decreases n
  {
    if state.IsError() {
      StringErrorLast(v, tok, state, u, m);
    } else {
      StringErrorPre(v, tok, state, u, n, err, m);
      var step := StringStep(state, u, v.buf[v.pos], tok.str);
      StringErrorRun(Advance(v, 1), tok.(str := step.2), step.0, step.1, n - 1, err, m);
      StringErrorPost(v, tok, state, u, n, m);
    }
  }

  /** What the loop of `scan_string` needs after one byte when the string runs to the end of the buffer. */
  lemma UnterminatedPre(v: StreamView, tok: Token, state: StringState, u: UState)
    requires CleanAhead(v, |v.buf|) && v.pos < |v.buf| && state in {SRegular, SEscaped, SUescape} && UInv(u)
    requires Decode(state, u, v.buf[v.pos..], tok.str).0 == SUnterminated
    ensures var step := StringStep(state, u, v.buf[v.pos], tok.str);
      var v1 := Advance(v, 1);
      CleanAhead(v1, |v.buf|) && v1.buf == v.buf && v1.pos == v.pos + 1 &&
      !step.0.IsError() && UInv(step.1) &&
      Decode(step.0, step.1, v1.buf[v1.pos..], step.2).0 == SUnterminated
  {
    DecodeTail(state, u, v.buf, v.pos, tok.str);
    ReadClean(v, |v.buf|);
    StepNotUnterminated(state, u, v.buf[v.pos], tok.str);
  }

  /** The loop of `scan_string` from one byte on, put back in front of that byte, when it meets the end of the buffer. */
  lemma UnterminatedPost(v: StreamView, tok: Token, state: StringState, u: UState)
    requires CleanAhead(v, |v.buf|) && v.pos < |v.buf| && state in {SRegular, SEscaped, SUescape} && UInv(u)
    requires var step := StringStep(state, u, v.buf[v.pos], tok.str);
      var v1 := Advance(v, 1);
      CleanAhead(v1, |v.buf|) && !step.0.IsError() && UInv(step.1) &&
      StringLoop(v1, tok.(str := step.2), step.0, step.1) == Lex(Advance(v1, |v1.buf| - v1.pos).(eof := true), ResetToken, None)
    ensures StringLoop(v, tok, state, u) == Lex(Advance(v, |v.buf| - v.pos).(eof := true), ResetToken, None)
  {
    var step := StringStep(state, u, v.buf[v.pos], tok.str);
    var v1 := Advance(v, 1);
    assert StringLoop(v, tok, state, u) == StringLoop(v1, tok.(str := step.2), step.0, step.1) && v1.pos == v.pos + 1 && v1.buf == v.buf by {
      StringOne(v, tok, state, u, |v.buf|);
    }
    assert Advance(v1, |v.buf| - v.pos - 1) == Advance(v, |v.buf| - v.pos) by {
      AdvanceAdd(v, 1, |v.buf| - v.pos - 1);
    }
  }

  /**
   * A string the buffer ends inside of: the loop of `scan_string` reads all
   * the remaining bytes, meets EOF, and gives up as unterminated with the
   * token reset and the EOF flag set.
   */
  lemma {:induction false} StringUnterminatedRun(v: StreamView, tok: Token, state: StringState, u: UState)
    requires CleanAhead(v, |v.buf|) && !state.IsError() && UInv(u)
    requires Decode(state, u, v.buf[v.pos..], tok.str).0 == SUnterminated
    ensures StringLoop(v, tok, state, u) == Lex(Advance(v, |v.buf| - v.pos).(eof := true), ResetToken, None)
    decreases |v.buf| - v.pos
  {
    if v.pos == |v.buf| {
      AdvanceNone(v);
      StringLoopStep(v, tok, state, u, v.(eof := true), Json.Return(SEOF));
    } else {
      UnterminatedPre(v, tok, state, u);
      var step := StringStep(state, u, v.buf[v.pos], tok.str);
      StringUnterminatedRun(Advance(v, 1), tok.(str := step.2), step.0, step.1);
      UnterminatedPost(v, tok, state, u);
    }
  }

  /** The string scanner is the `while` loop of `scan_string` from its start state. */
  lemma StringDispatch(v: StreamView, tok: Token, makeFloat: bytes -> Option<Json.Float>)
    requires Shape(v)
    ensures DispatchSpec(v, tok, SelectString, makeFloat) == StringLoop(v, tok, SRegular, UState(0, 0))
  {
  }

  /** The validator stays in its start state over ASCII bytes. */
  lemma {:induction false} FeedAscii(s: bytes)
    requires forall i :: 0 <= i < |s| ==> s[i] <= 0x7F
    ensures Feed(0, s) == 0
    decreases |s|
  {
    if s != [] {
      FeedAscii(s[1..]);
    }
  }

  /** A run of ASCII bytes other than NUL at the start of a buffer is delivered in full. */
  lemma AsciiClean(buf: bytes, n: nat)
    requires n <= |buf| && forall i :: 0 <= i < n ==> 0 < buf[i] <= 0x7F
    ensures Clean(buf, n)
  {
    FeedAscii(buf[..n]);
  }

  /** `\u0000`, an escaped NUL. */
  const ESCAPED_NUL: bytes := [0x5C, 0x75, 0x30, 0x30, 0x30, 0x30]

  /** Four zero digits of a `\u` escape: the value is NUL, and the machine stops in SZERO after them. */
  lemma ZeroDigitsDecode(b: bytes, p: nat, str: bytes)
    requires p + 4 <= |b| && b[p] == 0x30 && b[p + 1] == 0x30 && b[p + 2] == 0x30 && b[p + 3] == 0x30
    ensures Decode(SUescape, UState(0, 0), b[p..], str).0 == SZero
    ensures Decode(SUescape, UState(0, 0), b[p..], str).1 == 4
  {
    UScanDigit(UState(3, 0), 0x30, str);
    assert Decode(SZero, UState(0, 0), b[p + 4..], str).1 == 0;
    DecodeTail(SUescape, UState(3, 0), b, p + 3, str);
    UScanDigit(UState(2, 0), 0x30, str);
    DecodeTail(SUescape, UState(2, 0), b, p + 2, str);
    UScanDigit(UState(1, 0), 0x30, str);
    DecodeTail(SUescape, UState(1, 0), b, p + 1, str);
    UScanDigit(UState(0, 0), 0x30, str);
    DecodeTail(SUescape, UState(0, 0), b, p, str);
  }

  /** The string machine on `\u0000`: the fourth digit spells NUL, so it stops in SZERO after those six bytes. */
  lemma EscapedNulDecodes(b: bytes, p: nat, str: bytes)
    requires p + 6 <= |b| && b[p..p + 6] == ESCAPED_NUL
    ensures Decode(SRegular, UState(0, 0), b[p..], str).0 == SZero
    ensures Decode(SRegular, UState(0, 0), b[p..], str).1 == 6
  {
    assert b[p] == 0x5C && b[p + 1] == 0x75 && b[p + 2] == 0x30 && b[p + 3] == 0x30 && b[p + 4] == 0x30 && b[p + 5] == 0x30 by {
      assert forall i :: p <= i < p + 6 ==> b[i] == b[p..p + 6][i - p];
    }
    ZeroDigitsDecode(b, p + 2, str);
    assert StringStep(SEscaped, UState(0, 0), 0x75, str) == (SUescape, UState(0, 0), str);
    DecodeTail(SEscaped, UState(0, 0), b, p + 1, str);
    assert StringStep(SRegular, UState(0, 0), 0x5C, str) == (SEscaped, UState(0, 0), str);
    DecodeTail(SRegular, UState(0, 0), b, p, str);
  }

  /**
   * `scan` of a buffer that starts `"\u0000` and one more ASCII byte: the
   * escape is rejected as SZERO, the byte after it is read, and the token is
   * reset with nothing thrown.
   */
  lemma ScanEscapedNul(buf: bytes, makeFloat: bytes -> Option<Json.Float>)
    requires 8 <= |buf| && buf[0] == 0x22 && buf[1..7] == ESCAPED_NUL && 0 < buf[7] <= 0x7F
    ensures ScanSpec(Init(buf), makeFloat) == Lex(Advance(Init(buf), 8), ResetToken, None)
  {
    var v := Init(buf);
    var v1 := Advance(v, 1);
    var tok := ResetToken.(kind := String);
    assert ScanSpec(v, makeFloat) == StringLoop(v1, tok, SRegular, UState(0, 0)) && CleanAhead(v1, 8) && v1.pos == 1 by {
      assert forall i :: 1 <= i < 7 ==> buf[i] == buf[1..7][i - 1];
      AsciiClean(buf, 8);
      ScanLead(v, 0, 8, makeFloat);
      StringDispatch(v1, tok, makeFloat);
    }
    assert StringLoop(v1, tok, SRegular, UState(0, 0)) == Lex(Advance(v1, 7), ResetToken, None) by {
      EscapedNulDecodes(buf, 1, []);
      StringErrorRun(v1, tok, SRegular, UState(0, 0), 6, SZero, 8);
    }
    AdvanceAdd(v, 1, 7);
  }

  /**
   * `scan` of a buffer that starts with a quote, the raw control byte 0x01
   * and one more ASCII byte: 0x01 is rejected as a bad regular byte, the
   * byte after it is read, and the token is reset with nothing thrown.
   */
  lemma ScanRawControl(buf: bytes, makeFloat: bytes -> Option<Json.Float>)
    requires 3 <= |buf| && buf[0] == 0x22 && buf[1] == 0x01 && 0 < buf[2] <= 0x7F
    ensures ScanSpec(Init(buf), makeFloat) == Lex(Advance(Init(buf), 3), ResetToken, None)
  {
    var v := Init(buf);
    var v1 := Advance(v, 1);
    var tok := ResetToken.(kind := String);
    assert ScanSpec(v, makeFloat) == StringLoop(v1, tok, SRegular, UState(0, 0)) && CleanAhead(v1, 3) && v1.pos == 1 by {
      AsciiClean(buf, 3);
      ScanLead(v, 0, 3, makeFloat);
      StringDispatch(v1, tok, makeFloat);
    }
    assert StringLoop(v1, tok, SRegular, UState(0, 0)) == Lex(Advance(v1, 2), ResetToken, None) by {
      DecodeTail(SRegular, UState(0, 0), buf, 1, []);
      StringErrorRun(v1, tok, SRegular, UState(0, 0), 1, SRegularInvalid, 3);
    }
    AdvanceAdd(v, 1, 2);
  }

  /** The string scanner run from just after the opening quote that `quote` writes. */
  lemma QuotedTail(s: bytes, rest: bytes, v: StreamView, v1: StreamView)
    requires forall i :: 0 <= i < |s| ==> s[i] != 0
    requires Clean(Output.Quoted(s) + rest, |Output.Quoted(s)|)
    requires v == Init(Output.Quoted(s) + rest) && v1 == Advance(v, 1)
    requires CleanAhead(v1, |Output.Quoted(s)|) && v1.pos == 1 && v1.buf == v.buf
    ensures StringLoop(v1, ResetToken.(kind := String), SRegular, UState(0, 0)) ==
      Lex(Advance(v, |Output.Quoted(s)|), ResetToken.(kind := String, str := s), None)
  {
    var q := Output.Quoted(s);
    var e := Output.Escaped(s);
    assert v1.buf[v1.pos..] == e + [Output.QUOTE] + rest;
    RoundTrips.QuoteDecodes(s, rest, []);
    assert [] + s == s;
    StringRun(v1, ResetToken.(kind := String), SRegular, UState(0, 0), |e| + 1, s, |q|);
    AdvanceAdd(v, 1, |e| + 1);
  }

  /**
   * What `quote` writes for a string without NUL, followed by anything, is
   * read back by `scan` as one STRING token holding exactly that string, and
   * the stream stands right after the closing quote.
   */
  lemma ScanQuoted(s: bytes, rest: bytes, makeFloat: bytes -> Option<Json.Float>)
    requires forall i :: 0 <= i < |s| ==> s[i] != 0
    requires Clean(Output.Quoted(s) + rest, |Output.Quoted(s)|)
    ensures var buf := Output.Quoted(s) + rest;
      ScanSpec(Init(buf), makeFloat) ==
        Lex(Advance(Init(buf), |Output.Quoted(s)|), ResetToken.(kind := String, str := s), None)
  {
    var v := Init(Output.Quoted(s) + rest);
    assert v.buf[0] == Output.QUOTE;
    ScanLead(v, 0, |Output.Quoted(s)|, makeFloat);
    QuotedTail(s, rest, v, Advance(v, 1));
    StringDispatch(Advance(v, 1), ResetToken.(kind := String), makeFloat);
  }

  /** Only a `.` or an exponent letter leads the number table into SDEC_POINT or SE. */
  lemma FloatStatesNeedSymbol(c: int, q: NumberState)
    requires q.HasRow() && 0 < c < 0x100
    ensures NextNumberState(c, q) in {SDecPoint, SE} ==> c == 0x2E || IsExponent(c)
  {
    StepTable(c, q);
  }

  /** A byte of a clean stream on which the table of `validate_number` keeps going is stored. */
  lemma NumberStep(v: StreamView, size: nat, q: NumberState, lit: bytes, kind: NumberKind, m: nat)
    requires q.HasRow() && NoNul(lit) && CleanAhead(v, m) && v.pos < m && |lit| + 1 < size
    requires NextNumberState(v.buf[v.pos] as int, q).HasRow()
    ensures var c := v.buf[v.pos];
      var q' := NextNumberState(c as int, q);
      CleanAhead(Advance(v, 1), m) && Advance(v, 1).pos == v.pos + 1 && Advance(v, 1).buf == v.buf &&
      NoNul(lit + [c]) &&
      NumberLoop(v, size, q, lit, kind) ==
        NumberLoop(Advance(v, 1), size, q', lit + [c], if q' == SDecPoint || q' == SE then KindFloat else kind)
  {
    ReadClean(v, m);
    NumberLoopStep(v, size, q, lit, kind, Advance(v, 1), Json.Return(v.buf[v.pos] as int));
  }

  /** A byte of a clean stream on which the table reaches SDONE ends the literal and is pushed back. */
  lemma NumberStop(v: StreamView, size: nat, q: NumberState, lit: bytes, kind: NumberKind, m: nat)
    requires q.HasRow() && NoNul(lit) && CleanAhead(v, m) && v.pos < m && |lit| < size
    requires NextNumberState(v.buf[v.pos] as int, q) == SDone
    ensures NumberLoop(v, size, q, lit, kind) == NumberScan(Advance(v, 1).(pos := v.pos), kind, lit, None)
  {
    ReadClean(v, m);
    NumberLoopStep(v, size, q, lit, kind, Advance(v, 1), Json.Return(v.buf[v.pos] as int));
  }

  /** A byte on which the table keeps going but that would fill the buffer ends the literal with NONE. */
  lemma NumberFull(v: StreamView, size: nat, q: NumberState, lit: bytes, kind: NumberKind, m: nat)
    requires q.HasRow() && NoNul(lit) && CleanAhead(v, m) && v.pos < m && |lit| + 1 == size
    requires NextNumberState(v.buf[v.pos] as int, q).HasRow()
    ensures NumberLoop(v, size, q, lit, kind) == NumberScan(Advance(v, 1), KindNone, lit, None)
  {
    ReadClean(v, m);
    NumberLoopStep(v, size, q, lit, kind, Advance(v, 1), Json.Return(v.buf[v.pos] as int));
  }

  /** Splitting the first byte off a slice of the buffer. */
  lemma SliceCons(buf: bytes, i: nat, e: nat, lit: bytes)
    requires i < e <= |buf|
    ensures buf[i..e][0] == buf[i] && buf[i..e][1..] == buf[i + 1..e]
    ensures lit + [buf[i]] + buf[i + 1..e] == lit + buf[i..e]
  {
    assert buf[i..e] == [buf[i]] + buf[i + 1..e];
  }

  /** The table run over a slice of the buffer, one byte at a time. */
  lemma RunCons(q: NumberState, buf: bytes, i: nat, e: nat)
    requires q.HasRow() && i < e <= |buf|
    ensures Run(q, buf[i..e]) == Run(NextNumberState(buf[i] as int, q), buf[i + 1..e])
  {
    SliceCons(buf, i, e, []);
  }

  /** The stream and the literal after `e`, counted from one byte further on. */
  lemma NumberShift(v: StreamView, lit: bytes, e: nat, m: nat)
    requires CleanAhead(v, m) && v.pos < e < m
    ensures var v1 := Advance(v, 1);
      v1.pos == v.pos + 1 && v1.buf == v.buf &&
      Advance(v1, e - v1.pos + 1) == Advance(v, e - v.pos + 1) &&
      lit + [v.buf[v.pos]] + v1.buf[v1.pos..e] == lit + v.buf[v.pos..e]
  {
    SliceCons(v.buf, v.pos, e, lit);
    AdvanceAdd(v, 1, e - v.pos);
  }

  /** What the loop of `validate_number` needs after one byte before the end of the literal. */
  lemma NumberPre(v: StreamView, size: nat, q: NumberState, lit: bytes, e: nat, qe: NumberState, m: nat)
    requires q.HasRow() && NoNul(lit) && CleanAhead(v, m) && v.pos < e < m && |lit| + (e - v.pos) < size
    requires Run(q, v.buf[v.pos..e]) == qe && qe.HasRow()
    requires forall j :: v.pos <= j < e ==> v.buf[j] != 0x2E && !IsExponent(v.buf[j] as int)
    ensures var c := v.buf[v.pos];
      var q' := NextNumberState(c as int, q);
      var v1 := Advance(v, 1);
      q'.HasRow() && NoNul(lit + [c]) && CleanAhead(v1, m) && v1.pos <= e < m && |lit + [c]| + (e - v1.pos) < size &&
      Run(q', v1.buf[v1.pos..e]) == qe &&
      forall j :: v1.pos <= j < e ==> v1.buf[j] != 0x2E && !IsExponent(v1.buf[j] as int)
  {
    RunCons(q, v.buf, v.pos, e);
    ReadClean(v, m);
  }

  /** The loop of `validate_number` from one stored byte on, put back in front of that byte. */
  lemma NumberPost(v: StreamView, size: nat, q: NumberState, lit: bytes, kind: NumberKind, e: nat, m: nat)
    requires q.HasRow() && NoNul(lit) && CleanAhead(v, m) && v.pos < e < m && |lit| + (e - v.pos) < size
    requires v.buf[v.pos] != 0x2E && !IsExponent(v.buf[v.pos] as int)
    requires var c := v.buf[v.pos];
      var q' := NextNumberState(c as int, q);
      var v1 := Advance(v, 1);
      q'.HasRow() && CleanAhead(v1, m) && v1.pos == v.pos + 1 && NoNul(lit + [c]) &&
      NumberLoop(v1, size, q', lit + [c], kind) ==
        NumberScan(Advance(v1, e - v1.pos + 1).(pos := e), kind, lit + [c] + v1.buf[v1.pos..e], None)
    ensures NumberLoop(v, size, q, lit, kind) ==
      NumberScan(Advance(v, e - v.pos + 1).(pos := e), kind, lit + v.buf[v.pos..e], None)
  {
    NumberStep(v, size, q, lit, kind, m);
    FloatStatesNeedSymbol(v.buf[v.pos] as int, q);
    NumberShift(v, lit, e, m);
  }

  /**
   * The loop of `validate_number` over the bytes from `pos` up to `e`, on
   * which the table keeps going, and a delimiter at `e` on which it reaches
   * SDONE: it stores those bytes, pushes the delimiter back, and keeps the
   * kind when they hold neither `.` nor an exponent.
   */
  lemma {:induction false} NumberRun(v: StreamView, size: nat, q: NumberState, lit: bytes, kind: NumberKind, e: nat, qe: NumberState, m: nat)
    requires q.HasRow() && NoNul(lit) && CleanAhead(v, m) && v.pos <= e < m && |lit| + (e - v.pos) < size
    requires Run(q, v.buf[v.pos..e]) == qe && qe.HasRow() && NextNumberState(v.buf[e] as int, qe) == SDone
    requires forall j :: v.pos <= j < e ==> v.buf[j] != 0x2E && !IsExponent(v.buf[j] as int)
    ensures NumberLoop(v, size, q, lit, kind) ==
      NumberScan(Advance(v, e - v.pos + 1).(pos := e), kind, lit + v.buf[v.pos..e], None)
    decreases e - v.pos
  {
    if e == v.pos {
      NumberStop(v, size, q, lit, kind, m);
      assert lit + v.buf[v.pos..e] == lit;
    } else {
      NumberPre(v, size, q, lit, e, qe, m);
      var c := v.buf[v.pos];
      NumberRun(Advance(v, 1), size, NextNumberState(c as int, q), lit + [c], kind, e, qe, m);
      NumberPost(v, size, q, lit, kind, e, m);
    }
  }

  /** The loop of `validate_number` from one stored byte on, when the literal fills the buffer at `e`. */
  lemma FillPost(v: StreamView, size: nat, q: NumberState, lit: bytes, kind: NumberKind, e: nat, m: nat)
    requires q.HasRow() && NoNul(lit) && CleanAhead(v, m) && v.pos < e < m && |lit| + (e - v.pos) + 1 == size
    requires var c := v.buf[v.pos];
      var q' := NextNumberState(c as int, q);
      var v1 := Advance(v, 1);
      var kind' := if q' == SDecPoint || q' == SE then KindFloat else kind;
      q'.HasRow() && CleanAhead(v1, m) && v1.pos == v.pos + 1 && NoNul(lit + [c]) &&
      NumberLoop(v1, size, q', lit + [c], kind') ==
        NumberScan(Advance(v1, e - v1.pos + 1), KindNone, lit + [c] + v1.buf[v1.pos..e], None)
    ensures NumberLoop(v, size, q, lit, kind) ==
      NumberScan(Advance(v, e - v.pos + 1), KindNone, lit + v.buf[v.pos..e], None)
  {
    NumberStep(v, size, q, lit, kind, m);
    NumberShift(v, lit, e, m);
  }

  /**
   * The loop of `validate_number` over the bytes from `pos` up to and
   * including `e`, on all of which the table keeps going, when the byte at
   * `e` would fill the buffer: it gives up with NONE, holding the bytes
   * before `e`.
   */
  lemma {:induction false} NumberFill(v: StreamView, size: nat, q: NumberState, lit: bytes, kind: NumberKind, e: nat, qe: NumberState, m: nat)
    requires q.HasRow() && NoNul(lit) && CleanAhead(v, m) && v.pos <= e < m && |lit| + (e - v.pos) + 1 == size
    requires Run(q, v.buf[v.pos..e]) == qe && qe.HasRow() && NextNumberState(v.buf[e] as int, qe).HasRow()
    ensures NumberLoop(v, size, q, lit, kind) ==
      NumberScan(Advance(v, e - v.pos + 1), KindNone, lit + v.buf[v.pos..e], None)
    decreases e - v.pos
  {
    if e == v.pos {
      NumberFull(v, size, q, lit, kind, m);
      assert lit + v.buf[v.pos..e] == lit;
    } else {
      var c := v.buf[v.pos];
      var q' := NextNumberState(c as int, q);
      RunCons(q, v.buf, v.pos, e);
      ReadClean(v, m);
      var kind' := if q' == SDecPoint || q' == SE then KindFloat else kind;
      NumberFill(Advance(v, 1), size, q', lit + [c], kind', e, qe, m);
      FillPost(v, size, q, lit, kind, e, m);
    }
  }

  function Pow10(k: nat): (p: nat)
    ensures p >= 1
  {
    if k == 0 then 1 else 10 * Pow10(k - 1)
  }

  /** A number below 10^k has at most k decimal digits. */
  lemma {:induction false} DigitsOfLength(n: nat, k: nat)
    requires 1 <= k && n < Pow10(k)
    ensures |Output.DigitsOf(n)| <= k
    decreases k
  {
    if n >= 10 {
      assert k > 1;
      assert n / 10 < Pow10(k - 1);
      DigitsOfLength(n / 10, k - 1);
    }
  }

  /** Every int64 prints in at most 20 bytes, well inside the 1024-byte buffer of `scan_number`. */
  lemma DecimalShort(i: int64)
    ensures |Output.Decimal(i as int)| <= 20
  {
    assert Pow10(19) == 10000000000000000000 by {
      assert Pow10(10) == 10000000000;
    }
    DigitsOfLength(if i < 0 then -(i as int) else i as int, 19);
  }

  /** Reading on after pushing back the last byte read. */
  lemma AdvanceAfterUnget(v: StreamView, a: nat, b: nat)
    requires v.valid <= |v.buf| && 1 <= a && 1 <= b && v.pos + a <= |v.buf| && v.pos + a - 1 + b <= |v.buf|
    ensures Advance(Advance(v, a).(pos := v.pos + a - 1), b) == Advance(v, a - 1 + b)
  {
  }

  /**
   * A `-` or a digit after `k` whitespace bytes: `scan` pushes it back and
   * runs `scan_number` from it.
   */
  lemma ScanNumberLead(v: StreamView, k: nat, m: nat, makeFloat: bytes -> Option<Json.Float>)
    requires CleanAhead(v, m) && v.pos + k < m
    requires forall j :: v.pos <= j < v.pos + k ==> IsWs(v.buf[j] as int)
    requires v.buf[v.pos + k] == 0x2D || IsDigit(v.buf[v.pos + k] as int)
    ensures var v2 := Advance(v, k + 1).(pos := v.pos + k);
      CleanAhead(v2, m) && v2.buf == v.buf &&
      ScanSpec(v, makeFloat) == ScanNumberSpec(v2, ResetToken.(kind := Number), makeFloat)
  {
    ScanLead(v, k, m, makeFloat);
  }

  /** `scan_number` when `validate_number` ends without an exception on an INT literal: `make_int` decides the token. */
  lemma NumberIntConvert(v: StreamView, tok: Token, makeFloat: bytes -> Option<Json.Float>, w: StreamView, s: bytes)
    requires Shape(v) && ValidateNumberSpec(v, NUMBER_BUFFER) == NumberScan(w, KindInt, s, None)
    ensures ScanNumberSpec(v, tok, makeFloat) ==
      Lex(w, match MakeInt(s)
             case Some(x) => tok.(numberType := KindInt, intValue := x)
             case None => ResetToken,
          None)
  {
  }

  /**
   * `scan_number` on an integer literal from `pos` up to `e`, before a byte
   * that ends it: kind INT and the value `make_int` gives, or the reset
   * token when the conversion fails; the byte at `e` is pushed back.
   */
  lemma NumberSpecInt(v: StreamView, e: nat, makeFloat: bytes -> Option<Json.Float>)
    requires CleanAhead(v, e + 1) && v.pos < e && e - v.pos < NUMBER_BUFFER
    requires var s := v.buf[v.pos..e];
      IsAccepting(Run(SStart, s)) && NextNumberState(v.buf[e] as int, Run(SStart, s)) == SDone &&
      forall j :: v.pos <= j < e ==> v.buf[j] != 0x2E && !IsExponent(v.buf[j] as int)
    ensures ScanNumberSpec(v, ResetToken.(kind := Number), makeFloat) ==
      Lex(Advance(v, e - v.pos + 1).(pos := e),
          match MakeInt(v.buf[v.pos..e])
          case Some(x) => ResetToken.(kind := Number, numberType := KindInt, intValue := x)
          case None => ResetToken,
          None)
  {
    var s := v.buf[v.pos..e];
    NumberRun(v, NUMBER_BUFFER, SStart, [], KindInt, e, Run(SStart, s), e + 1);
    assert [] + s == s;
    NumberIntConvert(v, ResetToken.(kind := Number), makeFloat, Advance(v, e - v.pos + 1).(pos := e), s);
  }

  /** The number scanner run from the lead byte of an integer literal, pushed back after `k` whitespace bytes. */
  lemma IntegerTail(v: StreamView, k: nat, e: nat, v2: StreamView, makeFloat: bytes -> Option<Json.Float>)
    requires CleanAhead(v, e + 1) && v.pos + k < e && e - (v.pos + k) < NUMBER_BUFFER
    requires var s := v.buf[v.pos + k..e];
      IsAccepting(Run(SStart, s)) && NextNumberState(v.buf[e] as int, Run(SStart, s)) == SDone &&
      forall j :: v.pos + k <= j < e ==> v.buf[j] != 0x2E && !IsExponent(v.buf[j] as int)
    requires v2 == Advance(v, k + 1).(pos := v.pos + k) && CleanAhead(v2, e + 1) && v2.buf == v.buf
    ensures ScanNumberSpec(v2, ResetToken.(kind := Number), makeFloat) ==
      Lex(Advance(v, e - v.pos + 1).(pos := e),
          match MakeInt(v.buf[v.pos + k..e])
          case Some(x) => ResetToken.(kind := Number, numberType := KindInt, intValue := x)
          case None => ResetToken,
          None)
  {
    var s := v.buf[v.pos + k..e];
    var w := Advance(v2, e - v2.pos + 1).(pos := e);
    assert ScanNumberSpec(v2, ResetToken.(kind := Number), makeFloat) ==
      Lex(w, match MakeInt(s)
             case Some(x) => ResetToken.(kind := Number, numberType := KindInt, intValue := x)
             case None => ResetToken,
          None) by {
      assert v2.pos == v.pos + k && v2.buf[v2.pos..e] == s;
      NumberSpecInt(v2, e, makeFloat);
    }
    assert w == Advance(v, e - v.pos + 1).(pos := e) by {
      AdvanceAfterUnget(v, k + 1, e - (v.pos + k) + 1);
    }
  }

  /**
   * An integer literal from `pos + k` up to `e`, after `k` whitespace bytes
   * and before a byte that ends it: `scan` gives a NUMBER token of kind INT
   * with the value `make_int` converts it to, or the reset token when the
   * conversion fails; the byte at `e` is pushed back.
   */
  lemma ScanInteger(v: StreamView, k: nat, e: nat, makeFloat: bytes -> Option<Json.Float>)
    requires CleanAhead(v, e + 1) && v.pos + k < e && e - (v.pos + k) < NUMBER_BUFFER
    requires forall j :: v.pos <= j < v.pos + k ==> IsWs(v.buf[j] as int)
    requires v.buf[v.pos + k] == 0x2D || IsDigit(v.buf[v.pos + k] as int)
    requires var s := v.buf[v.pos + k..e];
      IsAccepting(Run(SStart, s)) && NextNumberState(v.buf[e] as int, Run(SStart, s)) == SDone &&
      forall j :: v.pos + k <= j < e ==> v.buf[j] != 0x2E && !IsExponent(v.buf[j] as int)
    ensures var r := ScanSpec(v, makeFloat);
      r.stream == Advance(v, e - v.pos + 1).(pos := e) && r.thrown == None &&
      r.token == (match MakeInt(v.buf[v.pos + k..e])
                  case Some(x) => ResetToken.(kind := Number, numberType := KindInt, intValue := x)
                  case None => ResetToken)
  {
    ScanNumberLead(v, k, e + 1, makeFloat);
    IntegerTail(v, k, e, Advance(v, k + 1).(pos := v.pos + k), makeFloat);
  }

  /** The number scanner run from the pushed-back lead byte of a literal that fills the buffer. */
  lemma LongNumberTail(v: StreamView, k: nat, v2: StreamView, makeFloat: bytes -> Option<Json.Float>)
    requires CleanAhead(v, v.pos + k + NUMBER_BUFFER)
    requires var e := v.pos + k + NUMBER_BUFFER - 1;
      var q := Run(SStart, v.buf[v.pos + k..e]);
      q.HasRow() && NextNumberState(v.buf[e] as int, q).HasRow()
    requires v2 == Advance(v, k + 1).(pos := v.pos + k) && CleanAhead(v2, v.pos + k + NUMBER_BUFFER) && v2.buf == v.buf
    ensures ScanNumberSpec(v2, ResetToken.(kind := Number), makeFloat) ==
      Lex(Advance(v, k + NUMBER_BUFFER), ResetToken, None)
  {
    var e := v.pos + k + NUMBER_BUFFER - 1;
    NumberFill(v2, NUMBER_BUFFER, SStart, [], KindInt, e, Run(SStart, v.buf[v.pos + k..e]), e + 1);
    AdvanceAfterUnget(v, k + 1, NUMBER_BUFFER);
  }

  /**
   * A number literal that does not end within the `NUMBER_BUFFER` bytes
   * `scan_number` can hold: `scan` reads all of them and gives the reset
   * token, with nothing thrown.
   */
  lemma ScanLongNumber(v: StreamView, k: nat, makeFloat: bytes -> Option<Json.Float>)
    requires CleanAhead(v, v.pos + k + NUMBER_BUFFER)
    requires forall j :: v.pos <= j < v.pos + k ==> IsWs(v.buf[j] as int)
    requires v.buf[v.pos + k] == 0x2D || IsDigit(v.buf[v.pos + k] as int)
    requires var e := v.pos + k + NUMBER_BUFFER - 1;
      var q := Run(SStart, v.buf[v.pos + k..e]);
      q.HasRow() && NextNumberState(v.buf[e] as int, q).HasRow()
    ensures ScanSpec(v, makeFloat) == Lex(Advance(v, k + NUMBER_BUFFER), ResetToken, None)
  {
    ScanNumberLead(v, k, v.pos + k + NUMBER_BUFFER, makeFloat);
    LongNumberTail(v, k, Advance(v, k + 1).(pos := v.pos + k), makeFloat);
  }

  /** At the end of the buffer `getc` meets EOF; on SDONE the `ungetc` after it changes nothing. */
  lemma NumberEndStop(v: StreamView, size: nat, q: NumberState, lit: bytes, kind: NumberKind)
    requires q.HasRow() && NoNul(lit) && CleanAhead(v, |v.buf|) && v.pos == |v.buf| && |lit| < size
    requires NextNumberState(SEOF, q) == SDone
    ensures NumberLoop(v, size, q, lit, kind) == NumberScan(Advance(v, 0).(eof := true), kind, lit, None)
  {
    AdvanceNone(v);
    NumberLoopStep(v, size, q, lit, kind, v.(eof := true), Json.Return(SEOF));
  }

  /** The rest of the buffer after its first byte, and the literal grown by that byte. */
  lemma EndShift(v: StreamView, lit: bytes)
    requires CleanAhead(v, |v.buf|) && v.pos < |v.buf|
    ensures var v1 := Advance(v, 1);
      v1.pos == v.pos + 1 && v1.buf == v.buf &&
      Advance(v1, |v1.buf| - v1.pos).(eof := true) == Advance(v, |v.buf| - v.pos).(eof := true) &&
      lit + [v.buf[v.pos]] + v1.buf[v1.pos..] == lit + v.buf[v.pos..]
  {
    assert v.buf[v.pos..] == [v.buf[v.pos]] + v.buf[v.pos + 1..];
    AdvanceAdd(v, 1, |v.buf| - v.pos - 1);
  }

  /** What the loop of `validate_number` needs after one byte of a literal that runs to the end of the buffer. */
  lemma NumberEndPre(v: StreamView, size: nat, q: NumberState, lit: bytes, qe: NumberState)
    requires q.HasRow() && NoNul(lit) && CleanAhead(v, |v.buf|) && v.pos < |v.buf| && |lit| + (|v.buf| - v.pos) < size
    requires Run(q, v.buf[v.pos..]) == qe && qe.HasRow()
    requires forall j :: v.pos <= j < |v.buf| ==> v.buf[j] != 0x2E && !IsExponent(v.buf[j] as int)
    ensures var c := v.buf[v.pos];
      var q' := NextNumberState(c as int, q);
      var v1 := Advance(v, 1);
      q'.HasRow() && NoNul(lit + [c]) && CleanAhead(v1, |v1.buf|) && v1.buf == v.buf &&
      |lit + [c]| + (|v1.buf| - v1.pos) < size && Run(q', v1.buf[v1.pos..]) == qe &&
      forall j :: v1.pos <= j < |v1.buf| ==> v1.buf[j] != 0x2E && !IsExponent(v1.buf[j] as int)
  {
    assert v.buf[v.pos..|v.buf|] == v.buf[v.pos..] && v.buf[v.pos + 1..|v.buf|] == v.buf[v.pos + 1..];
    RunCons(q, v.buf, v.pos, |v.buf|);
    ReadClean(v, |v.buf|);
  }

  /** The loop of `validate_number` from one stored byte on, put back in front of that byte, at the end of the buffer. */
  lemma NumberEndPost(v: StreamView, size: nat, q: NumberState, lit: bytes, kind: NumberKind)
    requires q.HasRow() && NoNul(lit) && CleanAhead(v, |v.buf|) && v.pos < |v.buf| && |lit| + (|v.buf| - v.pos) < size
    requires v.buf[v.pos] != 0x2E && !IsExponent(v.buf[v.pos] as int)
    requires var c := v.buf[v.pos];
      var q' := NextNumberState(c as int, q);
      var v1 := Advance(v, 1);
      q'.HasRow() && CleanAhead(v1, |v.buf|) && NoNul(lit + [c]) &&
      NumberLoop(v1, size, q', lit + [c], kind) ==
        NumberScan(Advance(v1, |v1.buf| - v1.pos).(eof := true), kind, lit + [c] + v1.buf[v1.pos..], None)
    ensures NumberLoop(v, size, q, lit, kind) ==
      NumberScan(Advance(v, |v.buf| - v.pos).(eof := true), kind, lit + v.buf[v.pos..], None)
  {
    NumberStep(v, size, q, lit, kind, |v.buf|);
    FloatStatesNeedSymbol(v.buf[v.pos] as int, q);
    EndShift(v, lit);
  }

  /**
   * The loop of `validate_number` over the rest of the buffer, on which the
   * table keeps going and then reaches SDONE on EOF: it stores every byte,
   * sets EOF (so the `ungetc` does nothing), and keeps the kind when the
   * bytes hold neither `.` nor an exponent.
   */
  lemma {:induction false} NumberRunEnd(v: StreamView, size: nat, q: NumberState, lit: bytes, kind: NumberKind, qe: NumberState)
    requires q.HasRow() && NoNul(lit) && CleanAhead(v, |v.buf|) && |lit| + (|v.buf| - v.pos) < size
    requires Run(q, v.buf[v.pos..]) == qe && qe.HasRow() && NextNumberState(SEOF, qe) == SDone
    requires forall j :: v.pos <= j < |v.buf| ==> v.buf[j] != 0x2E && !IsExponent(v.buf[j] as int)
    ensures NumberLoop(v, size, q, lit, kind) ==
      NumberScan(Advance(v, |v.buf| - v.pos).(eof := true), kind, lit + v.buf[v.pos..], None)
    decreases |v.buf| - v.pos
  {
    if v.pos == |v.buf| {
      NumberEndStop(v, size, q, lit, kind);
      assert lit + v.buf[v.pos..] == lit;
    } else {
      NumberEndPre(v, size, q, lit, qe);
      var c := v.buf[v.pos];
      NumberRunEnd(Advance(v, 1), size, NextNumberState(c as int, q), lit + [c], kind, qe);
      NumberEndPost(v, size, q, lit, kind);
    }
  }

  /**
   * `scan_number` on an integer literal that runs from `pos` to the end of
   * the buffer: EOF ends it, and the token is the INT `make_int` gives, or
   * the reset token when the conversion fails.
   */
  lemma NumberSpecIntAtEnd(v: StreamView, makeFloat: bytes -> Option<Json.Float>)
    requires CleanAhead(v, |v.buf|) && v.pos < |v.buf| && |v.buf| - v.pos < NUMBER_BUFFER
    requires IsAccepting(Run(SStart, v.buf[v.pos..]))
    requires forall j :: v.pos <= j < |v.buf| ==> v.buf[j] != 0x2E && !IsExponent(v.buf[j] as int)
    ensures ScanNumberSpec(v, ResetToken.(kind := Number), makeFloat) ==
      Lex(Advance(v, |v.buf| - v.pos).(eof := true),
          match MakeInt(v.buf[v.pos..])
          case Some(x) => ResetToken.(kind := Number, numberType := KindInt, intValue := x)
          case None => ResetToken,
          None)
  {
    var s := v.buf[v.pos..];
    AcceptingEnds(Run(SStart, s), SEOF);
    NumberRunEnd(v, NUMBER_BUFFER, SStart, [], KindInt, Run(SStart, s));
    assert [] + s == s;
    NumberIntConvert(v, ResetToken.(kind := Number), makeFloat, Advance(v, |v.buf| - v.pos).(eof := true), s);
  }

  /** Reading to the end after pushing back the last byte read. */
  lemma AdvanceToEndAfterUnget(v: StreamView, a: nat)
    requires v.valid <= |v.buf| && 1 <= a && v.pos + a <= |v.buf|
    ensures var v2 := Advance(v, a).(pos := v.pos + a - 1);
      Advance(v2, |v2.buf| - v2.pos) == Advance(v, |v.buf| - v.pos)
  {
    AdvanceAfterUnget(v, a, |v.buf| - (v.pos + a - 1));
  }

  /**
   * An integer literal after `k` whitespace bytes that runs to the end of
   * the buffer: `scan` reads all of it, sets EOF, and gives the INT token
   * `make_int` converts it to, or the reset token when the conversion fails.
   */
  lemma ScanIntegerAtEnd(v: StreamView, k: nat, makeFloat: bytes -> Option<Json.Float>)
    requires CleanAhead(v, |v.buf|) && v.pos + k < |v.buf| && |v.buf| - (v.pos + k) < NUMBER_BUFFER
    requires forall j :: v.pos <= j < v.pos + k ==> IsWs(v.buf[j] as int)
    requires v.buf[v.pos + k] == 0x2D || IsDigit(v.buf[v.pos + k] as int)
    requires IsAccepting(Run(SStart, v.buf[v.pos + k..]))
    requires forall j :: v.pos + k <= j < |v.buf| ==> v.buf[j] != 0x2E && !IsExponent(v.buf[j] as int)
    ensures var r := ScanSpec(v, makeFloat);
      r.stream == Advance(v, |v.buf| - v.pos).(eof := true) && r.stream.eof && r.stream.pos == |v.buf| &&
      r.thrown == None &&
      r.token == (match MakeInt(v.buf[v.pos + k..])
                  case Some(x) => ResetToken.(kind := Number, numberType := KindInt, intValue := x)
                  case None => ResetToken)
  {
    var v2 := Advance(v, k + 1).(pos := v.pos + k);
    assert ScanSpec(v, makeFloat) == ScanNumberSpec(v2, ResetToken.(kind := Number), makeFloat) &&
      CleanAhead(v2, |v.buf|) && v2.buf == v.buf by {
      ScanNumberLead(v, k, |v.buf|, makeFloat);
    }
    assert v2.pos == v.pos + k && v2.buf[v2.pos..] == v.buf[v.pos + k..];
    var w := Advance(v2, |v2.buf| - v2.pos).(eof := true);
    assert ScanNumberSpec(v2, ResetToken.(kind := Number), makeFloat) ==
      Lex(w, match MakeInt(v.buf[v.pos + k..])
             case Some(x) => ResetToken.(kind := Number, numberType := KindInt, intValue := x)
             case None => ResetToken,
          None) by {
      NumberSpecIntAtEnd(v2, makeFloat);
    }
    assert w == Advance(v, |v.buf| - v.pos).(eof := true) by {
      AdvanceToEndAfterUnget(v, k + 1);
    }
  }

  /** A byte of a clean stream on which the table reaches SERROR ends the literal with NONE and is pushed back. */
  lemma NumberErrorStop(v: StreamView, size: nat, q: NumberState, lit: bytes, kind: NumberKind, m: nat)
    requires q.HasRow() && NoNul(lit) && CleanAhead(v, m) && v.pos < m && |lit| < size
    requires NextNumberState(v.buf[v.pos] as int, q) == SError
    ensures NumberLoop(v, size, q, lit, kind) == NumberScan(Advance(v, 1).(pos := v.pos), KindNone, lit, None)
  {
    ReadClean(v, m);
    NumberLoopStep(v, size, q, lit, kind, Advance(v, 1), Json.Return(v.buf[v.pos] as int));
  }

  /** What the loop of `validate_number` needs after one byte before the byte the table rejects. */
  lemma NumberErrorPre(v: StreamView, size: nat, q: NumberState, lit: bytes, e: nat, qe: NumberState, m: nat)
    requires q.HasRow() && NoNul(lit) && CleanAhead(v, m) && v.pos < e < m && |lit| + (e - v.pos) < size
    requires Run(q, v.buf[v.pos..e]) == qe && qe.HasRow()
    ensures var c := v.buf[v.pos];
      var q' := NextNumberState(c as int, q);
      var v1 := Advance(v, 1);
      q'.HasRow() && NoNul(lit + [c]) && CleanAhead(v1, m) && v1.pos <= e < m && |lit + [c]| + (e - v1.pos) < size &&
      Run(q', v1.buf[v1.pos..e]) == qe
  {
    RunCons(q, v.buf, v.pos, e);
    ReadClean(v, m);
  }

  /** The loop of `validate_number` from one stored byte on, put back in front of that byte, when it ends in SERROR. */
  lemma NumberErrorPost(v: StreamView, size: nat, q: NumberState, lit: bytes, kind: NumberKind, e: nat, m: nat)
    requires q.HasRow() && NoNul(lit) && CleanAhead(v, m) && v.pos < e < m && |lit| + (e - v.pos) < size
    requires var c := v.buf[v.pos];
      var q' := NextNumberState(c as int, q);
      var v1 := Advance(v, 1);
      var kind' := if q' == SDecPoint || q' == SE then KindFloat else kind;
      q'.HasRow() && CleanAhead(v1, m) && v1.pos == v.pos + 1 && NoNul(lit + [c]) &&
      NumberLoop(v1, size, q', lit + [c], kind') ==
        NumberScan(Advance(v1, e - v1.pos + 1).(pos := e), KindNone, lit + [c] + v1.buf[v1.pos..e], None)
    ensures NumberLoop(v, size, q, lit, kind) ==
      NumberScan(Advance(v, e - v.pos + 1).(pos := e), KindNone, lit + v.buf[v.pos..e], None)
  {
    NumberStep(v, size, q, lit, kind, m);
    NumberShift(v, lit, e, m);
  }

  /**
   * The loop of `validate_number` over the bytes from `pos` up to `e`, on
   * which the table keeps going, and a byte at `e` on which it reaches
   * SERROR: it stores those bytes, pushes the byte at `e` back, and reports
   * NONE whatever kind the bytes before it had.
   */
  lemma {:induction false} NumberRunError(v: StreamView, size: nat, q: NumberState, lit: bytes, kind: NumberKind, e: nat, qe: NumberState, m: nat)
    requires q.HasRow() && NoNul(lit) && CleanAhead(v, m) && v.pos <= e < m && |lit| + (e - v.pos) < size
    requires Run(q, v.buf[v.pos..e]) == qe && qe.HasRow() && NextNumberState(v.buf[e] as int, qe) == SError
    ensures NumberLoop(v, size, q, lit, kind) ==
      NumberScan(Advance(v, e - v.pos + 1).(pos := e), KindNone, lit + v.buf[v.pos..e], None)
    decreases e - v.pos
  {
    if e == v.pos {
      NumberErrorStop(v, size, q, lit, kind, m);
      assert lit + v.buf[v.pos..e] == lit;
    } else {
      NumberErrorPre(v, size, q, lit, e, qe, m);
      var c := v.buf[v.pos];
      var q' := NextNumberState(c as int, q);
      NumberRunError(Advance(v, 1), size, q', lit + [c], if q' == SDecPoint || q' == SE then KindFloat else kind, e, qe, m);
      NumberErrorPost(v, size, q, lit, kind, e, m);
    }
  }

  /** `scan_number` when `validate_number` reports NONE without an exception: the token is reset. */
  lemma NumberNoneConvert(v: StreamView, tok: Token, makeFloat: bytes -> Option<Json.Float>, w: StreamView, s: bytes)
    requires Shape(v) && ValidateNumberSpec(v, NUMBER_BUFFER) == NumberScan(w, KindNone, s, None)
    ensures ScanNumberSpec(v, tok, makeFloat) == Lex(w, ResetToken, None)
  {
  }

  /** `scan_number` on a literal from `pos` that the table rejects at the byte at `e`: the token is reset. */
  lemma NumberSpecError(v: StreamView, e: nat, makeFloat: bytes -> Option<Json.Float>)
    requires CleanAhead(v, e + 1) && v.pos < e && e - v.pos < NUMBER_BUFFER
    requires var q := Run(SStart, v.buf[v.pos..e]);
      q.HasRow() && NextNumberState(v.buf[e] as int, q) == SError
    ensures ScanNumberSpec(v, ResetToken.(kind := Number), makeFloat) == Lex(Advance(v, e - v.pos + 1).(pos := e), ResetToken, None)
  {
    var s := v.buf[v.pos..e];
    NumberRunError(v, NUMBER_BUFFER, SStart, [], KindInt, e, Run(SStart, s), e + 1);
    NumberNoneConvert(v, ResetToken.(kind := Number), makeFloat, Advance(v, e - v.pos + 1).(pos := e), [] + s);
  }

  /** The number scanner run from the pushed-back lead byte of a literal that breaks the grammar at `e`. */
  lemma NumberErrorTail(v: StreamView, k: nat, e: nat, v2: StreamView, makeFloat: bytes -> Option<Json.Float>)
    requires CleanAhead(v, e + 1) && v.pos + k < e && e - (v.pos + k) < NUMBER_BUFFER
    requires var q := Run(SStart, v.buf[v.pos + k..e]);
      q.HasRow() && NextNumberState(v.buf[e] as int, q) == SError
    requires v2 == Advance(v, k + 1).(pos := v.pos + k) && CleanAhead(v2, e + 1)
    ensures ScanNumberSpec(v2, ResetToken.(kind := Number), makeFloat) == Lex(Advance(v, e - v.pos + 1).(pos := e), ResetToken, None)
  {
    var w := Advance(v2, e - v2.pos + 1).(pos := e);
    assert ScanNumberSpec(v2, ResetToken.(kind := Number), makeFloat) == Lex(w, ResetToken, None) by {
      assert v2.pos == v.pos + k && v2.buf[v2.pos..e] == v.buf[v.pos + k..e];
      NumberSpecError(v2, e, makeFloat);
    }
    assert w == Advance(v, e - v.pos + 1).(pos := e) by {
      AdvanceAfterUnget(v, k + 1, e - (v.pos + k) + 1);
    }
  }

  /**
   * A number literal after `k` whitespace bytes that breaks the grammar at
   * `e` (as in `-x`, `1.]` or `1e+,`): `scan` reads up to and including the
   * byte at `e`, pushes it back, and gives the reset token with nothing
   * thrown.
   */
  lemma ScanNumberError(v: StreamView, k: nat, e: nat, makeFloat: bytes -> Option<Json.Float>)
    requires CleanAhead(v, e + 1) && v.pos + k < e && e - (v.pos + k) < NUMBER_BUFFER
    requires forall j :: v.pos <= j < v.pos + k ==> IsWs(v.buf[j] as int)
    requires v.buf[v.pos + k] == 0x2D || IsDigit(v.buf[v.pos + k] as int)
    requires var q := Run(SStart, v.buf[v.pos + k..e]);
      q.HasRow() && NextNumberState(v.buf[e] as int, q) == SError
    ensures ScanSpec(v, makeFloat) == Lex(Advance(v, e - v.pos + 1).(pos := e), ResetToken, None)
  {
    var v2 := Advance(v, k + 1).(pos := v.pos + k);
    assert ScanSpec(v, makeFloat) == ScanNumberSpec(v2, ResetToken.(kind := Number), makeFloat) && CleanAhead(v2, e + 1) by {
      ScanNumberLead(v, k, e + 1, makeFloat);
    }
    NumberErrorTail(v, k, e, v2, makeFloat);
  }

  /**
   * A `-` followed by an ASCII byte that is not a digit, as in `-x`: `scan`
   * reads both, pushes the second back, and gives the reset token.
   */
  lemma ScanMinusNonDigit(buf: bytes, makeFloat: bytes -> Option<Json.Float>)
    requires 2 <= |buf| && buf[0] == 0x2D && 0 < buf[1] <= 0x7F && !IsDigit(buf[1] as int)
    ensures ScanSpec(Init(buf), makeFloat) == Lex(Advance(Init(buf), 2).(pos := 1), ResetToken, None)
  {
    AsciiClean(buf, 2);
    StepTable(0x2D, SStart);
    StepTable(buf[1] as int, SMinus);
    assert buf[0..1] == [0x2D] && [0x2D][1..] == [];
    assert Run(SStart, buf[0..1]) == SMinus;
    ScanNumberError(Init(buf), 0, 1, makeFloat);
  }

  /** What the integer printer writes: a number literal without `.` or exponent, at most 20 bytes, read back by `make_int`. */
  lemma DecimalFacts(i: int64)
    ensures var s := Output.Decimal(i as int);
      |s| <= 20 && IsAccepting(Run(SStart, s)) && MakeInt(s) == Some(i) &&
      s != [] && (s[0] == 0x2D || IsDigit(s[0] as int)) &&
      forall j :: 0 <= j < |s| ==> s[j] != 0x2E && !IsExponent(s[j] as int)
  {
    var s := Output.Decimal(i as int);
    assert |s| <= 20 by {
      DecimalShort(i);
    }
    assert MakeInt(s) == Some(i) by {
      RoundTrips.DecimalReadsBack(i);
    }
    RoundTrips.DecimalLexes(i as int);
    assert forall j :: 0 <= j < |s| ==> s[j] == 0x2D || IsDigit(s[j] as int);
  }

  /** The integer printer's output followed by a delimiter, as the premises of `ScanInteger` need it. */
  lemma DecimalBuffer(i: int64, d: byte, rest: bytes)
    requires d != 0 && !IsDigit(d as int) && !IsExponent(d as int) && d != 0x2E
    ensures var s := Output.Decimal(i as int);
      var buf := s + [d] + rest;
      0 < |s| <= 20 && buf[0..|s|] == s && buf[|s|] == d &&
      (buf[0] == 0x2D || IsDigit(buf[0] as int)) &&
      IsAccepting(Run(SStart, s)) && NextNumberState(d as int, Run(SStart, s)) == SDone && MakeInt(s) == Some(i) &&
      forall j :: 0 <= j < |s| ==> buf[j] != 0x2E && !IsExponent(buf[j] as int)
  {
    var s := Output.Decimal(i as int);
    DecimalFacts(i);
    AcceptingEnds(Run(SStart, s), d as int);
    assert (s + [d] + rest)[0..|s|] == s;
  }

  /**
   * What the serialiser prints for an int64, followed by a byte that cannot
   * continue a number, is read back by `scan` as one NUMBER token of kind INT
   * holding the same value; the delimiter is pushed back.
   */
  lemma ScanDecimal(i: int64, d: byte, rest: bytes, makeFloat: bytes -> Option<Json.Float>)
    requires d != 0 && !IsDigit(d as int) && !IsExponent(d as int) && d != 0x2E
    requires Clean(Output.Decimal(i as int) + [d] + rest, |Output.Decimal(i as int)| + 1)
    ensures var s := Output.Decimal(i as int);
      var buf := s + [d] + rest;
      var r := ScanSpec(Init(buf), makeFloat);
      r.thrown == None && r.token == ResetToken.(kind := Number, numberType := KindInt, intValue := i) &&
      r.stream == Advance(Init(buf), |s| + 1).(pos := |s|)
  {
    var s := Output.Decimal(i as int);
    DecimalBuffer(i, d, rest);
    ScanInteger(Init(s + [d] + rest), 0, |s|, makeFloat);
  }

  /**
   * What the serialiser prints for an int64, with nothing after it, is read
   * back by `scan` as one NUMBER token of kind INT holding the same value;
   * the stream ends with EOF set.
   */
  lemma ScanDecimalAtEnd(i: int64, makeFloat: bytes -> Option<Json.Float>)
    requires Clean(Output.Decimal(i as int), |Output.Decimal(i as int)|)
    ensures var s := Output.Decimal(i as int);
      var r := ScanSpec(Init(s), makeFloat);
      r.thrown == None && r.token == ResetToken.(kind := Number, numberType := KindInt, intValue := i) &&
      r.stream == Advance(Init(s), |s|).(eof := true) && r.stream.pos == |s|
  {
    var s := Output.Decimal(i as int);
    DecimalFacts(i);
    assert s[0..] == s;
    ScanIntegerAtEnd(Init(s), 0, makeFloat);
  }
}
