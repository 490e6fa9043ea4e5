/**
 * The byte stream of src/utf8stream.cc: `getc`/`ungetc` over a fixed buffer,
 * with sticky BAD and EOF flags, rejection of NUL, and a high-water mark
 * `valid` that makes every byte reach the UTF-8 validator exactly once.
 *
 * `StreamView` holds the stream's fields as a value, `GetcSpec`/`UngetcSpec`
 * are the source's member functions over it; class `Utf8Stream` is the object
 * the lexer updates in place, proved to follow those functions.
 */
module Utf8Streams {
  import opened Types
  import opened Utf8
  import opened Json

  /** `Utf8Stream::State`; `getc` returns SEOF and SBAD as its end markers. */
  const SGOOD: int := 0
  const SEOF: int := -1
  const SBAD: int := -2

  /** The fields of a `Utf8Stream`; `utf8` is the embedded validator's state. */
  datatype StreamView = StreamView(buf: bytes, pos: nat, bad: bool, eof: bool, valid: nat, utf8: int)

  /** The first `n` bytes would all be delivered: no NUL and no UTF-8 violation among them. */
  ghost predicate Clean(buf: bytes, n: nat)
  {
    n <= |buf| && (forall i :: 0 <= i < n ==> buf[i] != 0) && Feed(0, buf[..n]) != ERROR
  }

  /**
   * The shape every stream keeps: `pos <= valid <= len`, EOF only at the end,
   * and a validator that is in one of its states unless the stream is BAD.
   */
  predicate Shape(v: StreamView)
  {
    v.pos <= v.valid <= |v.buf| && (v.eof ==> v.pos == |v.buf|) && (!v.bad ==> IsCaseLabel(v.utf8))
  }

  /**
   * The stream invariant: the validator has been fed exactly `buf[..valid]`,
   * all of it deliverable (plus, after a UTF-8 failure, the one byte it
   * rejected).
   */
  ghost predicate Inv(v: StreamView)
  {
    Shape(v) &&
    Clean(v.buf, v.valid) &&
    (v.utf8 == Feed(0, v.buf[..v.valid]) ||
     (v.bad && v.utf8 == ERROR && v.valid < |v.buf| && Feed(0, v.buf[..v.valid + 1]) == ERROR))
  }

  /** The constructor: position 0, no flag set, a fresh validator. */
  function Init(buf: bytes): (v: StreamView)
    ensures Inv(v)
  {
    StreamView(buf, 0, false, false, 0, 0)
  }

  /** `state()`: BAD takes precedence over EOF. */
  function StateOf(v: StreamView): (r: int)
    ensures r == SBAD <==> v.bad
    ensures r == SEOF <==> !v.bad && v.eof
    ensures r == SGOOD <==> !v.bad && !v.eof
  {
    if v.bad then SBAD else if v.eof then SEOF else SGOOD
  }

  /** `location()`: the offset of the next byte to be read. */
  function LocationOf(v: StreamView): (l: Location)
    ensures l.offs == v.pos
  {
    Location(v.pos, 0, 0)
  }

  lemma {:induction false} CleanPrefix(buf: bytes, n: nat, m: nat)
    requires m <= n && Clean(buf, n)
    ensures Clean(buf, m)
  {
    assert buf[..n] == buf[..m] + buf[m..n];
    if Feed(0, buf[..m]) == ERROR {
      FeedErrorSticky(0, buf[..m], buf[m..n]);
    }
  }

  lemma CleanStep(buf: bytes, n: nat)
    requires Clean(buf, n) && n < |buf|
    ensures Feed(0, buf[..n + 1]) == NextState(Feed(0, buf[..n]), buf[n])
    ensures Clean(buf, n + 1) <==> buf[n] != 0 && NextState(Feed(0, buf[..n]), buf[n]) != ERROR
  {
    assert buf[..n + 1] == buf[..n] + [buf[n]];
    FeedSnoc(0, buf[..n], buf[n]);
  }

  /** `getc()` */
  function GetcSpec(v: StreamView): (r: (StreamView, Outcome<int>))
    requires Shape(v)
    ensures Shape(r.0) && r.0.buf == v.buf
    // once BAD, nothing changes and SBAD is returned; BAD is never cleared
    ensures v.bad ==> r == (v, Return(SBAD))
    // at the end: EOF is set, SEOF returned and the position stays
    ensures !v.bad && v.pos == |v.buf| ==> r == (v.(eof := true), Return(SEOF))
    // an exception always leaves the stream BAD at the offending byte
    ensures r.1.Throw? ==> r.0.bad && r.0.pos == v.pos < |v.buf|
    // a normal return to a stream still GOOD delivers the next byte, never NUL
    ensures r.1.Return? && StateOf(r.0) == SGOOD ==>
      v.pos < |v.buf| && r.0.pos == v.pos + 1 && r.1.value == v.buf[v.pos] as int && 0 < r.1.value < 0x100
    // a normal return to a stream not GOOD returns that state and does not move
    ensures r.1.Return? && StateOf(r.0) != SGOOD ==> r.1.value == StateOf(r.0) && r.0.pos == v.pos
  {
    if v.bad then (v, Return(SBAD))
    else if v.pos == |v.buf| then (v.(eof := true), Return(SEOF))
    else
      var c := v.buf[v.pos];
      if c == 0 then
        (v.(bad := true), Throw(Raised(Error(StreamZero, LocationOf(v)))))
      else if v.valid <= v.pos then
        var next := NextState(v.utf8, c);
        if next == ERROR then
          (v.(bad := true, utf8 := next), Throw(Raised(Error(Utf8Invalid, LocationOf(v)))))
        else
          (v.(utf8 := next, valid := v.valid + 1, pos := v.pos + 1), Return(c as int))
      else
        (v.(pos := v.pos + 1), Return(c as int))
  }

  /** `getc` keeps the invariant: each byte is fed to the validator once, when `pos` first passes `valid`. */
  lemma GetcInv(v: StreamView)
    requires Inv(v)
    ensures Inv(GetcSpec(v).0)
  {
    if !v.bad && v.pos < |v.buf| && v.buf[v.pos] != 0 {
      if v.valid <= v.pos {
        CleanStep(v.buf, v.valid);
      }
    }
  }

  /** What `getc` does with the byte at `pos`, on a stream that keeps the invariant. */
  lemma GetcByte(v: StreamView)
    requires Inv(v) && !v.bad && v.pos < |v.buf|
    ensures var r := GetcSpec(v);
      // a NUL byte: BAD, and STREAM_ZERO at that byte's offset
      (v.buf[v.pos] == 0 ==>
        r == (v.(bad := true), Throw(Raised(Error(StreamZero, Location(v.pos, 0, 0)))))) &&
      // a byte the validator rejects: BAD, and UTF8_INVALID at that byte's offset
      (v.buf[v.pos] != 0 && !Clean(v.buf, v.pos + 1) ==>
        r.0.bad && r.0.pos == v.pos && r.1 == Throw(Raised(Error(Utf8Invalid, Location(v.pos, 0, 0))))) &&
      // otherwise the byte itself; the validator sees it only the first time
      (Clean(v.buf, v.pos + 1) ==>
        r.1 == Return(v.buf[v.pos] as int) &&
        r.0 == v.(pos := v.pos + 1, valid := if v.valid == v.pos then v.pos + 1 else v.valid,
                  utf8 := if v.valid == v.pos then Feed(0, v.buf[..v.pos + 1]) else v.utf8))
  {
    if v.buf[v.pos] != 0 {
      if v.valid <= v.pos {
        CleanStep(v.buf, v.valid);
      } else {
        CleanPrefix(v.buf, v.valid, v.pos + 1);
      }
    }
  }

  /** `ungetc()`: steps back one byte unless at 0, BAD or EOF. */
  function UngetcSpec(v: StreamView): (r: StreamView)
    requires Shape(v)
    ensures Shape(r) && (Inv(v) ==> Inv(r))
    ensures v.pos != 0 && !v.bad && !v.eof ==> r == v.(pos := v.pos - 1)
    ensures v.pos == 0 || v.bad || v.eof ==> r == v
  {
    if v.pos != 0 && !v.bad && !v.eof then v.(pos := v.pos - 1) else v
  }

  /** `bad()`: marks the stream BAD. */
  function MarkBad(v: StreamView): (r: StreamView)
    requires Shape(v)
    ensures Shape(r) && (Inv(v) ==> Inv(r)) && r == v.(bad := true)
    ensures StateOf(r) == SBAD
  {
    v.(bad := true)
  }

  /**
   * The view after `k` bytes were read without error from a clean buffer:
   * the high-water mark moves only forward and the validator state follows it.
   */
  ghost function Advance(v: StreamView, k: nat): StreamView
    requires v.valid <= |v.buf| && v.pos + k <= |v.buf|
  {
    var p := v.pos + k;
    var hw := if v.valid < p then p else v.valid;
    v.(pos := p, valid := hw, utf8 := Feed(0, v.buf[..hw]))
  }

  /** Reading a byte of a clean prefix is an `Advance` by one. */
  lemma GetcClean(v: StreamView)
    requires Inv(v) && !v.bad && v.pos < |v.buf| && Clean(v.buf, v.pos + 1)
    ensures GetcSpec(v) == (Advance(v, 1), Return(v.buf[v.pos] as int))
    ensures Inv(Advance(v, 1)) && Advance(v, 1).utf8 == Feed(0, v.buf[..Advance(v, 1).valid])
  {
    GetcByte(v);
    GetcInv(v);
  }

  /** Two advances are one. */
  lemma AdvanceAdd(v: StreamView, a: nat, b: nat)
    requires v.valid <= |v.buf| && v.pos + a + b <= |v.buf|
    ensures Advance(Advance(v, a), b) == Advance(v, a + b)
  {
  }

  /** A re-read after `ungetc` does not feed the validator again. */
  lemma {:induction false} RereadAfterUngetc(v: StreamView)
    requires Inv(v) && !v.bad && v.pos < |v.buf| && Clean(v.buf, v.pos + 1)
    ensures var (v1, _) := GetcSpec(v);
            var v2 := UngetcSpec(v1);
            var (v3, c3) := GetcSpec(v2);
            v3 == v1 && c3 == Return(v.buf[v.pos] as int) && v3.valid == v1.valid && v3.utf8 == v1.utf8
  {
    GetcByte(v);
    GetcInv(v);
    var (v1, _) := GetcSpec(v);
    assert v1.pos == v.pos + 1 && v1.valid >= v1.pos;
    var v2 := UngetcSpec(v1);
    assert v2 == v1.(pos := v.pos);
    assert v2.valid > v2.pos;
    CleanPrefix(v2.buf, v2.valid, v2.pos + 1);
    GetcByte(v2);
  }

  /** `Utf8Stream`: the stream object the lexer reads from. */
  class Utf8Stream {
    const buf: bytes
    var pos: nat
    var bad: bool
    var eof: bool
    const utf8: Utf8Validator
    var valid: nat

    function View(): StreamView
      reads this, utf8
    {
      StreamView(buf, pos, bad, eof, valid, utf8.state)
    }

    predicate Valid()
      reads this, utf8
    {
      Shape(View())
    }

    constructor (data: bytes)
      ensures Valid() && View() == Init(data) && fresh(utf8)
    {
      buf := data;
      pos := 0;
      bad := false;
      eof := false;
      utf8 := new Utf8Validator();
      valid := 0;
    }

    function State(): (r: int)
      reads this
      ensures r == StateOf(StreamView(buf, pos, bad, eof, valid, 0))
    {
      if bad then SBAD else if eof then SEOF else SGOOD
    }

    function Location(): (l: Json.Location)
      reads this
      ensures l == LocationOf(StreamView(buf, pos, bad, eof, valid, 0))
    {
      Json.Location(pos, 0, 0)
    }

    method Getc() returns (r: Outcome<int>)
      requires Valid()
      modifies this, utf8
      ensures Valid()
      ensures (View(), r) == GetcSpec(old(View()))
    {
      if bad {
        return Return(SBAD);
      }
      if pos == |buf| {
        eof := true;
        return Return(SEOF);
      }
      var c := buf[pos];
      if c == 0 {
        bad := true;
        return Throw(Raised(Error(StreamZero, Location())));
      }
      if valid <= pos {
        var ok := utf8.Validate(c);
        bad := !ok;
        if bad {
          return Throw(Raised(Error(Utf8Invalid, Location())));
        }
        valid := valid + 1;
      }
      pos := pos + 1;
      return Return(c as int);
    }

    method Ungetc()
      requires Valid()
      modifies this
      ensures Valid() && View() == UngetcSpec(old(View()))
    {
      if pos != 0 && !bad && !eof {
        pos := pos - 1;
      }
    }

    method Bad()
      requires Valid()
      modifies this
      ensures Valid() && View() == MarkBad(old(View()))
    {
      bad := true;
    }
  }
}
