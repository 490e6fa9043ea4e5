/**
 * The serialiser of src/iostream.cc. An output stream is modelled as the
 * bytes written to it. `quote` escapes a string for JSON; `stream_container`
 * lays out an array or an object one element per line, with the elements
 * written through an `indent` stream buffer that puts a tab before every
 * character that starts a line; the `operator<<` overloads dispatch on the
 * tag. Nested containers nest their `indent` buffers, so the text of an inner
 * container passes through the filter of every enclosing one.
 */
module Output {
  import opened Types
  import J = Json
  import StringScanner

  const NL: byte := 0x0A
  const TAB: byte := 0x09
  const QUOTE: byte := 0x22
  const BACKSLASH: byte := 0x5C

  /** A lowercase hexadecimal digit. */
  function HexLower(d: nat): (c: byte)
    requires d < 16
    ensures StringScanner.HexDigit(c) == Some(d as int)
    ensures !(0x41 <= c <= 0x46)
  {
    if d < 10 then (0x30 + d) as byte else (0x61 + d - 10) as byte
  }

  /**
   * The `ESCAPE` table of `quote` and its default case: the short escapes for
   * backspace, tab, newline, form feed and carriage return, `\u00xx` for the
   * other control bytes, a backslash before `"` and `\`, and every other byte
   * as it is.
   */
  function Escape(c: byte): (r: bytes)
    ensures |r| == 1 || |r| == 2 || |r| == 6
    ensures |r| == 1 <==> (c > 0x1F && c != QUOTE && c != BACKSLASH)
    ensures |r| == 1 ==> r == [c]
    ensures |r| > 1 ==> r[0] == BACKSLASH
    ensures forall i :: 0 <= i < |r| ==> r[i] > 0x1F
  {
    if c == 0x08 then [BACKSLASH, 0x62]
    else if c == 0x09 then [BACKSLASH, 0x74]
    else if c == 0x0A then [BACKSLASH, 0x6E]
    else if c == 0x0C then [BACKSLASH, 0x66]
    else if c == 0x0D then [BACKSLASH, 0x72]
    else if c <= 0x1F then [BACKSLASH, 0x75, 0x30, 0x30, HexLower(c as nat / 16), HexLower(c as nat % 16)]
    else if c == QUOTE then [BACKSLASH, QUOTE]
    else if c == BACKSLASH then [BACKSLASH, BACKSLASH]
    else [c]
  }

  /**
   * A control byte without a short escape becomes `\u` and four lowercase hex
   * digits whose value, read as the lexer reads a `\uXXXX` escape, is the byte.
   */
  lemma ControlEscape(c: byte)
    requires c <= 0x1F && c != 0x08 && c != 0x09 && c != 0x0A && c != 0x0C && c != 0x0D
    ensures var r := Escape(c);
      r[..2] == [BACKSLASH, 0x75] && StringScanner.IsHex4(r[2..]) &&
      StringScanner.HexValue(r[2..]) == c as int &&
      forall i :: 2 <= i < 6 ==> !(0x41 <= r[i] <= 0x46)
  {
  }

  /** The escaped body of a quoted string. */
  function Escaped(s: bytes): (r: bytes)
    ensures forall i :: 0 <= i < |r| ==> r[i] > 0x1F
    ensures |s| <= |r|
  {
    if s == [] then [] else Escape(s[0]) + Escaped(s[1..])
  }

  lemma {:induction false} EscapedAppend(s: bytes, c: byte)
    ensures Escaped(s + [c]) == Escaped(s) + Escape(c)
  {
    if s == [] {
      assert [c][1..] == [];
    } else {
      assert (s + [c])[0] == s[0];
      assert (s + [c])[1..] == s[1..] + [c];
      EscapedAppend(s[1..], c);
    }
  }

  /** What `quote` writes: the escaped string between double quotes, with no raw control byte. */
  function Quoted(s: bytes): (r: bytes)
    ensures |r| >= 2 && r[0] == QUOTE && r[|r| - 1] == QUOTE
    ensures r[1..|r| - 1] == Escaped(s)
    ensures forall i :: 0 <= i < |r| ==> r[i] > 0x1F
  {
    [QUOTE] + Escaped(s) + [QUOTE]
  }

  /** `quote`: one table lookup per byte of the string. */
  method Quote(s: bytes) returns (out: bytes)
    ensures out == Quoted(s)
  {
    out := [QUOTE];
    for i := 0 to |s|
      invariant out == [QUOTE] + Escaped(s[..i])
    {
      EscapedAppend(s[..i], s[i]);
      assert s[..i + 1] == s[..i] + [s[i]];
      out := out + Escape(s[i]);
    }
    assert s[..|s|] == s;
    out := out + [QUOTE];
  }

  // indent

  /**
   * The bytes an `indent` buffer with `line_start_` set to `lineStart` passes
   * on for `s`: the indent string before every byte that starts a line and is
   * not itself a newline.
   */
  function Filter(lineStart: bool, ind: bytes, s: bytes): (r: bytes)
    decreases |s|
  {
    if s == [] then []
    else (if lineStart && s[0] != NL then ind else []) + [s[0]] + Filter(s[0] == NL, ind, s[1..])
  }

  /** `line_start_` after `s`: whether the last byte was a newline. */
  function FilterEnd(lineStart: bool, s: bytes): bool
  {
    if s == [] then lineStart else s[|s| - 1] == NL
  }

  /** Filtering is done byte by byte, so it can be split anywhere. */
  lemma {:induction false} FilterAppend(b: bool, ind: bytes, s: bytes, t: bytes)
    ensures Filter(b, ind, s + t) == Filter(b, ind, s) + Filter(FilterEnd(b, s), ind, t)
    ensures FilterEnd(b, s + t) == FilterEnd(FilterEnd(b, s), t)
    decreases |s|
  {
    if s == [] {
      assert s + t == t;
    } else {
      assert (s + t)[0] == s[0];
      assert (s + t)[1..] == s[1..] + t;
      FilterAppend(s[0] == NL, ind, s[1..], t);
    }
  }

  /** On text without a newline the filter adds the indent once, at the front, if a line starts there. */
  lemma {:induction false} FilterLine(b: bool, ind: bytes, t: bytes)
    requires NL !in t
    ensures Filter(b, ind, t) == (if b && t != [] then ind else []) + t
    ensures FilterEnd(b, t) == (b && t == [])
    decreases |t|
  {
    if t != [] {
      assert t[0] in t;
      assert forall x :: x in t[1..] ==> x in t;
      FilterLine(false, ind, t[1..]);
      assert t == [t[0]] + t[1..];
    }
  }

  /**
   * An `indent` whose output goes into another `indent` starting in the same
   * state writes both indent strings before each line, outer first: so text
   * at nesting depth d is indented by d tabs.
   */
  lemma {:induction false} FilterNest(b: bool, outer: bytes, inner: bytes, s: bytes)
    requires NL !in inner
    ensures Filter(b, outer, Filter(b, inner, s)) == Filter(b, outer + inner, s)
    decreases |s|
  {
    if s != [] {
      var head := (if b && s[0] != NL then inner else []) + [s[0]];
      var rest := Filter(s[0] == NL, inner, s[1..]);
      assert Filter(b, inner, s) == head + rest;
      FilterAppend(b, outer, head, rest);
      assert NL !in (if b && s[0] != NL then inner else []);
      if s[0] == NL {
        assert head == [NL];
        assert Filter(b, outer, head) == [NL];
      } else {
        FilterLine(b, outer, head);
        assert FilterEnd(b, head) == false;
      }
      assert FilterEnd(b, head) == (s[0] == NL);
      FilterNest(s[0] == NL, outer, inner, s[1..]);
    }
  }

  /**
   * The `indent` stream buffer: the indent string, `line_start_`, and the
   * bytes it has passed on to the destination buffer. It has no put area of
   * its own, so every byte written to it arrives at `overflow`.
   */
  class Indent {
    const indent: bytes
    var lineStart: bool
    var written: bytes
    /** Every byte written to the buffer so far. */
    ghost var received: bytes

    /** Started at a line start, the buffer has passed on the filter of what it received. */
    ghost predicate Valid()
      reads this
    {
      written == Filter(true, indent, received) && lineStart == FilterEnd(true, received)
    }

    /** `indent(std::ostream&, std::string indent = "\t")`: at the start of a line. */
    constructor (ind: bytes)
      ensures Valid() && indent == ind && received == []
    {
      indent := ind;
      lineStart := true;
      written := [];
      received := [];
    }

    /** `overflow`: the indent first if `ch` starts a line and is not a newline, then `ch`. */
    method Overflow(ch: byte)
      modifies this
      ensures written == old(written) + Filter(old(lineStart), indent, [ch])
      ensures lineStart == (ch == NL) && received == old(received) + [ch]
    {
      if lineStart && ch != NL {
        written := written + indent;
      }
      lineStart := ch == NL;
      written := written + [ch];
      received := received + [ch];
    }

    /** Writing `s` through the stream that owns this buffer: `overflow` for each byte in turn. */
    method Put(s: bytes)
      requires Valid()
      modifies this
      ensures Valid() && received == old(received) + s
    {
      for i := 0 to |s|
        invariant Valid() && received == old(received) + s[..i]
      {
        FilterAppend(true, indent, received, [s[i]]);
        assert s[..i + 1] == s[..i] + [s[i]];
        Overflow(s[i]);
      }
      assert s[..|s|] == s;
    }
  }

  // operator<<

  /** The decimal digits of `n`, most significant first, as `ostream` writes an integer. */
  function DigitsOf(n: nat): (r: bytes)
    ensures r != [] && (|r| > 1 ==> r[0] != 0x30)
    ensures forall i :: 0 <= i < |r| ==> 0x30 <= r[i] <= 0x39
    decreases n
  {
    if n < 10 then [(0x30 + n) as byte] else DigitsOf(n / 10) + [(0x30 + n % 10) as byte]
  }

  /** An integer in decimal, with a leading `-` when it is negative. */
  function Decimal(i: int): (r: bytes)
    ensures r != [] && (r[0] == 0x2D <==> i < 0)
  {
    if i < 0 then [0x2D] + DigitsOf(-i) else DigitsOf(i)
  }

  /**
   * What `operator<<` can print: the `assert(false)` of the TAG_INVALID and
   * TYPE_INVALID cases excludes them at every depth.
   */
  predicate Printable(v: J.Value)
    decreases v, 0
  {
    match v
    case Invalid => false
    case Num(n) => n.Type() != J.TypeInvalid
    case Arr(es) => forall i :: 0 <= i < |es| ==> Printable(es[i])
    case Obj(ms) => forall i :: 0 <= i < |ms| ==> Printable(ms[i].value)
    case _ => true
  }

  /** `operator<<(Number)`: integers in decimal; `std::fixed` for floating point is `fixed`. */
  function RenderNumber(n: J.Number, fixed: J.Float -> bytes): (r: bytes)
    requires n.Type() != J.TypeInvalid
  {
    match n.Type()
    case TypeInt => Decimal(n.IntValue() as int)
    case TypeUint => Decimal(n.UintValue() as int)
    case TypeFp => fixed(n.FpValue())
  }

  /** The elements of a container written one after another, `,\n` between them (the `sep` of `stream_container`). */
  function Join(rs: seq<bytes>): bytes
  {
    JoinFrom([], rs)
  }

  function JoinFrom(sep: bytes, rs: seq<bytes>): bytes
    decreases |rs|
  {
    if rs == [] then [] else sep + rs[0] + JoinFrom([0x2C, NL], rs[1..])
  }

  lemma {:induction false} JoinFromSnoc(sep: bytes, rs: seq<bytes>, r: bytes)
    ensures JoinFrom(sep, rs + [r]) == JoinFrom(sep, rs) + (if rs == [] then sep else [0x2C, NL]) + r
    decreases |rs|
  {
    if rs == [] {
      assert [r][1..] == [];
    } else {
      assert (rs + [r])[0] == rs[0];
      assert (rs + [r])[1..] == rs[1..] + [r];
      JoinFromSnoc([0x2C, NL], rs[1..], r);
    }
  }

  /** Appending an element adds the separator, if there was an element before, and the element. */
  lemma JoinSnoc(rs: seq<bytes>, r: bytes)
    ensures Join(rs + [r]) == Join(rs) + (if rs == [] then [] else [0x2C, NL]) + r
  {
    JoinFromSnoc([], rs, r);
  }

  /**
   * `stream_container`: an empty container is its two delimiters; otherwise
   * the open delimiter and a newline, the elements through a fresh `indent`
   * with a tab, and a newline and the close delimiter.
   */
  function Container(open: byte, close: byte, rs: seq<bytes>): (r: bytes)
  {
    if rs == [] then [open, close]
    else [open, NL] + Filter(true, [TAB], Join(rs)) + [NL, close]
  }

  /** The text `operator<<(std::ostream&, Value const&)` writes for `v`. */
  function Render(v: J.Value, fixed: J.Float -> bytes): (r: bytes)
    requires Printable(v)
    decreases v, 1
  {
    match v
    case Null => [0x6E, 0x75, 0x6C, 0x6C]
    case True => [0x74, 0x72, 0x75, 0x65]
    case False => [0x66, 0x61, 0x6C, 0x73, 0x65]
    case Num(n) => RenderNumber(n, fixed)
    case Str(s) => Quoted(s)
    case Arr(es) => Container(0x5B, 0x5D, RenderElements(es, fixed))
    case Obj(ms) => Container(0x7B, 0x7D, RenderMembers(ms, fixed))
  }

  function RenderElements(es: seq<J.Value>, fixed: J.Float -> bytes): (rs: seq<bytes>)
    requires forall i :: 0 <= i < |es| ==> Printable(es[i])
    ensures |rs| == |es|
    ensures forall i :: 0 <= i < |es| ==> rs[i] == Render(es[i], fixed)
    decreases es, 0
  {
    if es == [] then [] else [Render(es[0], fixed)] + RenderElements(es[1..], fixed)
  }

  /** `operator<<(Member)`: the quoted key, `": "`, the value. */
  function RenderMember(m: J.Member, fixed: J.Float -> bytes): (r: bytes)
    requires Printable(m.value)
    decreases m, 2
  {
    Quoted(m.key) + [0x3A, 0x20] + Render(m.value, fixed)
  }

  function RenderMembers(ms: seq<J.Member>, fixed: J.Float -> bytes): (rs: seq<bytes>)
    requires forall i :: 0 <= i < |ms| ==> Printable(ms[i].value)
    ensures |rs| == |ms|
    ensures forall i :: 0 <= i < |ms| ==> rs[i] == RenderMember(ms[i], fixed)
    decreases ms, 0
  {
    if ms == [] then [] else [RenderMember(ms[0], fixed)] + RenderMembers(ms[1..], fixed)
  }

  /** `operator<<(std::ostream&, Value const&)`. */
  method Print(v: J.Value, fixed: J.Float -> bytes) returns (out: bytes)
    requires Printable(v)
    ensures out == Render(v, fixed)
    decreases v, 3
  {
    match v {
      case Null => out := [0x6E, 0x75, 0x6C, 0x6C];
      case True => out := [0x74, 0x72, 0x75, 0x65];
      case False => out := [0x66, 0x61, 0x6C, 0x73, 0x65];
      case Num(n) => out := RenderNumber(n, fixed);
      case Str(s) => out := Quote(s);
      case Arr(_) => out := StreamContainer(v, fixed);
      case Obj(_) => out := StreamContainer(v, fixed);
    }
  }

  /** `operator<<(std::ostream&, Member const&)`. */
  method PrintMember(m: J.Member, fixed: J.Float -> bytes) returns (out: bytes)
    requires Printable(m.value)
    ensures out == RenderMember(m, fixed)
    decreases m
  {
    var key := Quote(m.key);
    var value := Print(m.value, fixed);
    out := key + [0x3A, 0x20] + value;
  }

  /** The rendered elements of an array or the rendered members of an object. */
  function Items(v: J.Value, fixed: J.Float -> bytes): (rs: seq<bytes>)
    requires (v.Arr? || v.Obj?) && Printable(v)
    ensures |rs| == if v.Arr? then |v.elements| else |v.members|
  {
    if v.Arr? then RenderElements(v.elements, fixed) else RenderMembers(v.members, fixed)
  }

  /** One iteration of the loop of `stream_container`: the text so far, the separator, the next element. */
  lemma ContainerStep(rs: seq<bytes>, i: nat, sep: bytes)
    requires i < |rs| && sep == (if i == 0 then [] else [0x2C, NL])
    ensures Join(rs[..i + 1]) == Join(rs[..i]) + sep + rs[i]
  {
    assert rs[..i + 1] == rs[..i] + [rs[i]];
    JoinSnoc(rs[..i], rs[i]);
  }

  /** The body of the loop of `stream_container`: `os << sep << *it` into the `indent` buffer. */
  method WriteItem(filter: Indent, ghost rs: seq<bytes>, i: nat, sep: bytes, item: bytes)
    requires filter.Valid() && i < |rs| && item == rs[i]
    requires sep == (if i == 0 then [] else [0x2C, NL]) && filter.received == Join(rs[..i])
    modifies filter
    ensures filter.Valid() && filter.received == Join(rs[..i + 1])
  {
    ContainerStep(rs, i, sep);
    filter.Put(sep);
    filter.Put(item);
  }

  /** The `os << *it` of `stream_container`: element or member `i`. */
  method PrintItem(v: J.Value, i: nat, fixed: J.Float -> bytes) returns (item: bytes)
    requires (v.Arr? || v.Obj?) && Printable(v)
    requires i < |Items(v, fixed)|
    ensures item == Items(v, fixed)[i]
    decreases v, 0
  {
    if v.Arr? {
      item := Print(v.elements[i], fixed);
    } else {
      item := PrintMember(v.members[i], fixed);
    }
  }

  /**
   * The loop of `stream_container`: `sep` and then each element, written
   * through a fresh `indent` with a tab; `sep` is empty before the first
   * element and `,\n` after it.
   */
  method StreamItems(v: J.Value, fixed: J.Float -> bytes) returns (body: bytes)
    requires (v.Arr? || v.Obj?) && Printable(v)
    ensures body == Filter(true, [TAB], Join(Items(v, fixed)))
    decreases v, 1
  {
    var n := if v.Arr? then |v.elements| else |v.members|;
    ghost var rs := Items(v, fixed);
    var filter := new Indent([TAB]);
    var sep: bytes := [];
    for i := 0 to n
      invariant filter.Valid() && filter.indent == [TAB]
      invariant sep == (if i == 0 then [] else [0x2C, NL])
      invariant filter.received == Join(rs[..i])
    {
      var item := PrintItem(v, i, fixed);
      WriteItem(filter, rs, i, sep, item);
      sep := [0x2C, NL];
    }
    assert rs[..n] == rs;
    body := filter.written;
  }

  /** `stream_container` for an array (`"[]"`) or an object (`"{}"`). */
  method StreamContainer(v: J.Value, fixed: J.Float -> bytes) returns (out: bytes)
    requires (v.Arr? || v.Obj?) && Printable(v)
    ensures out == Render(v, fixed)
    decreases v, 2
  {
    var open: byte, close: byte := 0x5B, 0x5D;
    if v.Obj? {
      open, close := 0x7B, 0x7D;
    }
    assert Render(v, fixed) == Container(open, close, Items(v, fixed));
    if (v.Arr? && v.elements == []) || (v.Obj? && v.members == []) {
      return [open, close];
    }
    var body := StreamItems(v, fixed);
    out := [open, NL] + body + [NL, close];
  }
}
