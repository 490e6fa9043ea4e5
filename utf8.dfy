/**
 * The UTF-8 validator of src/utf8.cc: a byte-at-a-time automaton whose
 * states are the case labels of the `next_state` switch. Sequence number `s`
 * (the first argument of the SEQ macros) owns the labels `s*4 + k`, where `k`
 * is the index of the next byte expected in that sequence; -1 is the error
 * state. The language accepted from state 0 is UTF8-octets of section 4 of
 * RFC 3629.
 */
module Utf8 {
  import opened Types

  const ERROR: int := -1

  /** Length of the byte sequence matched by SEQ number `s`. */
  function SeqLen(s: nat): nat
  {
    if s == 0 then 1 else if s == 1 then 2 else if s <= 5 then 3 else 4
  }

  predicate Tail(c: byte) { 0x80 <= c <= 0xBF }

  /** The matcher of byte `k` of SEQ number `s` (the rN arguments of the macros). */
  predicate InRange(s: nat, k: nat, c: byte)
  {
    if k == 0 then
      (s == 0 && c <= 0x7F) || (s == 1 && 0xC2 <= c <= 0xDF) ||
      (s == 2 && c == 0xE0) || (s == 3 && 0xE1 <= c <= 0xEC) ||
      (s == 4 && c == 0xED) || (s == 5 && 0xEE <= c <= 0xEF) ||
      (s == 6 && c == 0xF0) || (s == 7 && 0xF1 <= c <= 0xF3) ||
      (s == 8 && c == 0xF4)
    else if k == 1 && s == 2 then 0xA0 <= c <= 0xBF
    else if k == 1 && s == 4 then 0x80 <= c <= 0x9F
    else if k == 1 && s == 6 then 0x90 <= c <= 0xBF
    else if k == 1 && s == 8 then 0x80 <= c <= 0x8F
    else Tail(c)
  }

  /** The states the switch has a case label for; anything else hits `assert(false)`. */
  predicate IsCaseLabel(state: int)
  {
    0 <= state && state / 4 <= 8 && state % 4 < SeqLen(state / 4)
  }

  /** The fall-through chain of the `case s*4 + 0` labels, from sequence `s` on. */
  function Lead(s: nat, c: byte): (r: int)
    requires s <= 9
    ensures r == ERROR || IsCaseLabel(r)
    decreases 9 - s
  {
    if s == 9 then ERROR
    else if InRange(s, 0, c) then (if SeqLen(s) == 1 then 0 else s * 4 + 1)
    else Lead(s + 1, c)
  }

  /** `next_state`: one transition of the automaton. */
  function NextState(state: int, c: byte): (r: int)
    requires IsCaseLabel(state)
    ensures r == ERROR || IsCaseLabel(r)
    // from the start state: ASCII returns to 0, each lead byte opens its sequence
    ensures state == 0 ==>
      r == (if c <= 0x7F then 0
            else if 0xC2 <= c <= 0xDF then 5
            else if c == 0xE0 then 9
            else if 0xE1 <= c <= 0xEC then 13
            else if c == 0xED then 17
            else if 0xEE <= c <= 0xEF then 21
            else if c == 0xF0 then 25
            else if 0xF1 <= c <= 0xF3 then 29
            else if c == 0xF4 then 33
            else ERROR)
    // inside a sequence: the narrowed second-byte ranges, UTF8-tail elsewhere
    ensures state % 4 != 0 ==>
      r == (if !InRange(state / 4, state % 4, c) then ERROR
            else if state % 4 + 1 == SeqLen(state / 4) then 0
            else state + 1)
    ensures state % 4 != 0 && r != ERROR ==> Tail(c)
  {
    var s, k := state / 4, state % 4;
    if k == 0 then Lead(s, c)
    else if !InRange(s, k, c) then ERROR
    else if k + 1 == SeqLen(s) then 0
    else state + 1
  }

  /** The automaton run over a byte string; the error state absorbs. */
  function Feed(state: int, s: bytes): (r: int)
    requires IsCaseLabel(state)
    ensures r == ERROR || IsCaseLabel(r)
    decreases |s|
  {
    if s == [] then state
    else
      var n := NextState(state, s[0]);
      if n == ERROR then ERROR else Feed(n, s[1..])
  }

  /** UTF8-char of RFC 3629, written out from the grammar. */
  predicate Utf8Char(cs: bytes)
  {
    (|cs| == 1 && cs[0] <= 0x7F) ||
    (|cs| == 2 && 0xC2 <= cs[0] <= 0xDF && Tail(cs[1])) ||
    (|cs| == 3 &&
      ((cs[0] == 0xE0 && 0xA0 <= cs[1] <= 0xBF && Tail(cs[2])) ||
       (0xE1 <= cs[0] <= 0xEC && Tail(cs[1]) && Tail(cs[2])) ||
       (cs[0] == 0xED && 0x80 <= cs[1] <= 0x9F && Tail(cs[2])) ||
       (0xEE <= cs[0] <= 0xEF && Tail(cs[1]) && Tail(cs[2])))) ||
    (|cs| == 4 &&
      ((cs[0] == 0xF0 && 0x90 <= cs[1] <= 0xBF && Tail(cs[2]) && Tail(cs[3])) ||
       (0xF1 <= cs[0] <= 0xF3 && Tail(cs[1]) && Tail(cs[2]) && Tail(cs[3])) ||
       (cs[0] == 0xF4 && 0x80 <= cs[1] <= 0x8F && Tail(cs[2]) && Tail(cs[3]))))
  }

  /** UTF8-octets = *( UTF8-char ). */
  predicate IsUtf8(s: bytes)
    decreases |s|
  {
    s == [] ||
    (|s| >= 1 && Utf8Char(s[..1]) && IsUtf8(s[1..])) ||
    (|s| >= 2 && Utf8Char(s[..2]) && IsUtf8(s[2..])) ||
    (|s| >= 3 && Utf8Char(s[..3]) && IsUtf8(s[3..])) ||
    (|s| >= 4 && Utf8Char(s[..4]) && IsUtf8(s[4..]))
  }

  /** The length a lead byte announces (0 when it cannot start a character). */
  function CharLen(c: byte): nat
  {
    if c <= 0x7F then 1
    else if 0xC2 <= c <= 0xDF then 2
    else if 0xE0 <= c <= 0xEF then 3
    else if 0xF0 <= c <= 0xF4 then 4
    else 0
  }

  lemma CharLenUnique(cs: bytes)
    requires Utf8Char(cs)
    ensures |cs| == CharLen(cs[0])
  {
  }

  /** A complete character read from state 0 brings the automaton back to 0. */
  lemma {:induction false} FeedChar(s: bytes, n: nat)
    requires 1 <= n <= |s| && Utf8Char(s[..n])
    ensures Feed(0, s) == Feed(0, s[n..])
  {
    var st1 := NextState(0, s[0]);
    assert s[..n][0] == s[0];
    assert Feed(0, s) == if st1 == ERROR then ERROR else Feed(st1, s[1..]);
    if n >= 2 {
      assert s[..n][1] == s[1];
      assert s[1..][1..] == s[2..];
      var st2 := NextState(st1, s[1]);
      assert Feed(st1, s[1..]) == if st2 == ERROR then ERROR else Feed(st2, s[2..]);
      if n >= 3 {
        assert s[..n][2] == s[2];
        assert s[2..][1..] == s[3..];
        var st3 := NextState(st2, s[2]);
        assert Feed(st2, s[2..]) == if st3 == ERROR then ERROR else Feed(st3, s[3..]);
        if n == 4 {
          assert s[..n][3] == s[3];
          assert s[3..][1..] == s[4..];
          var st4 := NextState(st3, s[3]);
          assert Feed(st3, s[3..]) == if st4 == ERROR then ERROR else Feed(st4, s[4..]);
        }
      }
    }
  }

  /** Reaching state 0 again means the string starts with the character its lead byte announces. */
  lemma {:induction false} FeedFirstChar(s: bytes)
    requires s != []
    ensures Feed(0, s) == 0 ==> 1 <= CharLen(s[0]) <= |s| && Utf8Char(s[..CharLen(s[0])])
  {
    var st1 := NextState(0, s[0]);
    assert Feed(0, s) == if st1 == ERROR then ERROR else Feed(st1, s[1..]);
    if st1 != ERROR && st1 != 0 {
      if |s| == 1 {
        assert Feed(st1, s[1..]) == st1;
      } else {
        var st2 := NextState(st1, s[1]);
        assert s[1..][1..] == s[2..];
        assert Feed(st1, s[1..]) == if st2 == ERROR then ERROR else Feed(st2, s[2..]);
        if st2 != ERROR && st2 != 0 {
          if |s| == 2 {
            assert Feed(st2, s[2..]) == st2;
          } else {
            var st3 := NextState(st2, s[2]);
            assert s[2..][1..] == s[3..];
            assert Feed(st2, s[2..]) == if st3 == ERROR then ERROR else Feed(st3, s[3..]);
            if st3 != ERROR && st3 != 0 {
              if |s| == 3 {
                assert Feed(st3, s[3..]) == st3;
              } else {
                var st4 := NextState(st3, s[3]);
                assert s[3..][1..] == s[4..];
                assert Feed(st3, s[3..]) == if st4 == ERROR then ERROR else Feed(st4, s[4..]);
              }
            }
          }
        }
      }
    }
  }

  /**
   * The automaton run from state 0 over a byte string ends in state 0 exactly
   * when the string is in the UTF8-octets language of RFC 3629.
   */
  lemma {:induction false} FeedAcceptsUtf8(s: bytes)
    ensures Feed(0, s) == 0 <==> IsUtf8(s)
    decreases |s|
  {
    if s != [] {
      var n := CharLen(s[0]);
      if 1 <= n <= |s| && Utf8Char(s[..n]) {
        FeedChar(s, n);
        FeedAcceptsUtf8(s[n..]);
        forall m | 1 <= m <= 4 && m <= |s| && Utf8Char(s[..m]) ensures m == n {
          CharLenUnique(s[..m]);
        }
      } else {
        forall m | 1 <= m <= 4 && m <= |s| ensures !Utf8Char(s[..m]) {
          if Utf8Char(s[..m]) { CharLenUnique(s[..m]); }
        }
        FeedFirstChar(s);
      }
    }
  }

  /** Feeding a string byte by byte: one more byte is one more transition. */
  lemma {:induction false} FeedSnoc(state: int, s: bytes, c: byte)
    requires IsCaseLabel(state) && Feed(state, s) != ERROR
    ensures Feed(state, s + [c]) == NextState(Feed(state, s), c)
    decreases |s|
  {
    if s != [] {
      assert (s + [c])[1..] == s[1..] + [c];
      FeedSnoc(NextState(state, s[0]), s[1..], c);
    }
  }

  /** Once the error state is reached, no extension of the string recovers. */
  lemma {:induction false} FeedErrorSticky(state: int, s: bytes, t: bytes)
    requires IsCaseLabel(state) && Feed(state, s) == ERROR
    ensures Feed(state, s + t) == ERROR
    decreases |s|
  {
    assert s != [];
    assert (s + t)[1..] == s[1..] + t;
    if NextState(state, s[0]) != ERROR {
      FeedErrorSticky(NextState(state, s[0]), s[1..], t);
    }
  }

  /** `utf8validator`: the automaton's current state. */
  class Utf8Validator {
    var state: int

    constructor ()
      ensures state == 0
    {
      state := 0;
    }

    /** Advance by one byte; the `assert` of `next_state` is this method's precondition. */
    method Validate(c: byte) returns (ok: bool)
      requires IsCaseLabel(state)
      modifies this
      ensures state == NextState(old(state), c)
      ensures ok <==> state != ERROR
    {
      state := NextState(state, c);
      ok := state != ERROR;
    }
  }
}
