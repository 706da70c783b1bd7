/**
 Byte offsets and UTF-16 columns of a line (lib/LSP/PositionEncoding.cpp): two
 loops over the bytes, each an inverse of the other on character boundaries.
 */
module Utf16Columns {

  type Byte = b: int | 0 <= b < 0x100

  // ----- Characters -----

  /** How many bytes a lead byte announces, and how many UTF-16 units they make. */
  datatype Char = Char(len: nat, units: nat)

  function LeadByte(b: Byte): Char {
    if b < 0x80 then Char(1, 1)
    else if 0xC0 <= b < 0xE0 then Char(2, 1)
    else if 0xE0 <= b < 0xF0 then Char(3, 1)
    else if 0xF0 <= b < 0xF8 then Char(4, 2)
    else Char(1, 1)
  }

  /** The ranges above are the source's bit masks. */
  lemma MasksAreRanges(b: bv8)
    ensures b & 0xE0 == 0xC0 <==> 0xC0 <= b < 0xE0
    ensures b & 0xF0 == 0xE0 <==> 0xE0 <= b < 0xF0
    ensures b & 0xF8 == 0xF0 <==> 0xF0 <= b < 0xF8
  {
  }

  /** The character at `i`; one cut short by the end of the line is a single byte. */
  function CharAt(line: seq<Byte>, i: nat): (c: Char)
    requires i < |line|
    ensures c.len >= 1 && c.units >= 1 && i + c.len <= |line|
  {
    var c := LeadByte(line[i]);
    if i + c.len > |line| then Char(1, 1) else c
  }

  /** `k` is where a character starts, or the end, stepping from `i`. */
  predicate Boundary(line: seq<Byte>, i: nat, k: nat): (r: bool)
    ensures r ==> i <= k
    decreases |line| - i
  {
    i == k || (i < |line| && i < k && Boundary(line, i + CharAt(line, i).len, k))
  }

  /** The greatest boundary not above `k`. */
  function Floor(line: seq<Byte>, i: nat, k: nat): (f: nat)
    requires i <= k <= |line|
    ensures i <= f <= k
    decreases |line| - i
  {
    if i == k || i + CharAt(line, i).len > k then i else Floor(line, i + CharAt(line, i).len, k)
  }

  /** The UTF-16 units of the whole characters between `i` and `k`. */
  function Units(line: seq<Byte>, i: nat, k: nat): nat
    requires i <= k <= |line|
    decreases |line| - i
  {
    if i == k || i + CharAt(line, i).len > k then 0
    else CharAt(line, i).units + Units(line, i + CharAt(line, i).len, k)
  }

  /** Where `n` units end, counting whole characters from `i`. */
  function Offset(line: seq<Byte>, i: nat, n: nat): (k: nat)
    requires i <= |line|
    ensures i <= k <= |line|
    decreases |line| - i
  {
    if i == |line| || CharAt(line, i).units > n then i
    else Offset(line, i + CharAt(line, i).len, n - CharAt(line, i).units)
  }

  function Clamp(line: seq<Byte>, k: nat): (r: nat)
    ensures r <= |line|
  {
    if k >= |line| then |line| else k
  }

  /** The column of a byte offset. */
  function Column(line: seq<Byte>, k: nat): nat {
    Units(line, 0, Clamp(line, k))
  }

  // ----- The loops -----

  method ByteToUtf16Column(line: seq<Byte>, byteOffset: nat) returns (utf16: nat)
    ensures utf16 == Column(line, byteOffset)
  {
    var end := if byteOffset >= |line| then |line| else byteOffset;
    var i := 0;
    utf16 := 0;
    while i < end
      invariant i <= end <= |line|
      invariant utf16 + Units(line, i, end) == Units(line, 0, end)
    {
      var lead := LeadByte(line[i]);
      var len, units := lead.len, lead.units;
      if i + len > |line| {
        len, units := 1, 1;
      }
      if i + len > end {
        break;
      }
      utf16 := utf16 + units;
      i := i + len;
    }
  }

  method Utf16ToByteOffset(line: seq<Byte>, character: nat) returns (i: nat)
    ensures i == Offset(line, 0, character)
  {
    var utf16 := 0;
    i := 0;
    while i < |line| && utf16 < character
      invariant i <= |line| && utf16 <= character
      invariant Offset(line, i, character - utf16) == Offset(line, 0, character)
    {
      var lead := LeadByte(line[i]);
      var len, units := lead.len, lead.units;
      if i + len > |line| {
        len, units := 1, 1;
      }
      if utf16 + units > character {
        break;
      }
      utf16 := utf16 + units;
      i := i + len;
    }
  }

  // ----- Each undoes the other -----

  lemma {:induction false} FloorIsGreatest(line: seq<Byte>, i: nat, k: nat, b: nat)
    requires i <= k <= |line|
    ensures Boundary(line, i, Floor(line, i, k))
    ensures b <= k && Boundary(line, i, b) ==> b <= Floor(line, i, k)
    decreases |line| - i
  {
    if i < k && i + CharAt(line, i).len <= k {
      FloorIsGreatest(line, i + CharAt(line, i).len, k, b);
    }
  }

  lemma {:induction false} OffsetOfUnits(line: seq<Byte>, i: nat, k: nat)
    requires i <= k <= |line|
    ensures Offset(line, i, Units(line, i, k)) == Floor(line, i, k)
    decreases |line| - i
  {
    if i < k && i + CharAt(line, i).len <= k {
      OffsetOfUnits(line, i + CharAt(line, i).len, k);
    }
  }

  /** Main result: to a column and back is the greatest character boundary not above the offset. */
  lemma {:induction false} ByteRoundTrip(line: seq<Byte>, k: nat, b: nat)
    requires k <= |line|
    ensures
      var f := Offset(line, 0, Column(line, k));
      && f <= k && Boundary(line, 0, f)
      && (b <= k && Boundary(line, 0, b) ==> b <= f)
      && (Boundary(line, 0, k) ==> f == k)
  {
    OffsetOfUnits(line, 0, k);
    FloorIsGreatest(line, 0, k, b);
    FloorIsGreatest(line, 0, k, k);
  }

  lemma {:induction false} UnitsOfOffset(line: seq<Byte>, i: nat, n: nat, b: nat)
    requires i <= |line|
    ensures Boundary(line, i, Offset(line, i, n))
    ensures Units(line, i, Offset(line, i, n)) <= n
    ensures i <= b <= |line| && Boundary(line, i, b) && Units(line, i, b) <= n ==>
      b <= Offset(line, i, n) && Units(line, i, b) <= Units(line, i, Offset(line, i, n))
    decreases |line| - i
  {
    if i < |line| && CharAt(line, i).units <= n {
      UnitsOfOffset(line, i + CharAt(line, i).len, n - CharAt(line, i).units, b);
    }
  }

  /** Main result: to an offset and back is the greatest column of a boundary not above the column asked for. */
  lemma {:induction false} ColumnRoundTrip(line: seq<Byte>, n: nat, b: nat)
    requires b <= |line| && Boundary(line, 0, b)
    ensures
      var c := Column(line, Offset(line, 0, n));
      c <= n && (Column(line, b) <= n ==> Column(line, b) <= c)
  {
    UnitsOfOffset(line, 0, n, b);
  }

  lemma {:induction false} UnitsMonotone(line: seq<Byte>, i: nat, j: nat, k: nat)
    requires i <= j <= k <= |line|
    ensures Units(line, i, j) <= Units(line, i, k)
    decreases |line| - i
  {
    if i < j && i + CharAt(line, i).len <= j {
      UnitsMonotone(line, i + CharAt(line, i).len, j, k);
    }
  }

  lemma {:induction false} OffsetMonotone(line: seq<Byte>, i: nat, m: nat, n: nat)
    requires i <= |line| && m <= n
    ensures Offset(line, i, m) <= Offset(line, i, n)
    decreases |line| - i
  {
    if i < |line| && CharAt(line, i).units <= m {
      OffsetMonotone(line, i + CharAt(line, i).len, m - CharAt(line, i).units, n - CharAt(line, i).units);
    }
  }

  /** Main result: both conversions are monotone. */
  lemma {:induction false} Monotone(line: seq<Byte>, m: nat, n: nat)
    requires m <= n
    ensures Column(line, m) <= Column(line, n)
    ensures Offset(line, 0, m) <= Offset(line, 0, n)
  {
    UnitsMonotone(line, 0, Clamp(line, m), Clamp(line, n));
    OffsetMonotone(line, 0, m, n);
  }

  // ----- On valid UTF-8 -----

  /** A Unicode scalar value: a code point that is not a surrogate. */
  type Scalar = c: int | 0 <= c < 0xD800 || 0xE000 <= c < 0x11_0000

  /** The last `n` groups of six bits, a continuation byte each. */
  function Continuation(c: nat, n: nat): (bytes: seq<Byte>)
    ensures |bytes| == n
  {
    if n == 0 then [] else Continuation(c / 0x40, n - 1) + [0x80 + c % 0x40]
  }

  /** Section 3 of RFC 3629. */
  function Utf8(c: Scalar): (bytes: seq<Byte>)
    ensures bytes != [] && LeadByte(bytes[0]) == Char(|bytes|, if c < 0x1_0000 then 1 else 2)
  {
    if c < 0x80 then [c]
    else if c < 0x800 then [0xC0 + c / 0x40] + Continuation(c, 1)
    else if c < 0x1_0000 then [0xE0 + c / 0x1000] + Continuation(c, 2)
    else [0xF0 + c / 0x4_0000] + Continuation(c, 3)
  }

  /** Section 2.1 of RFC 2781: a surrogate pair above the basic plane. */
  function Utf16(c: Scalar): seq<nat> {
    if c < 0x1_0000 then [c]
    else [0xD800 + (c - 0x1_0000) / 0x400, 0xDC00 + (c - 0x1_0000) % 0x400]
  }

  datatype Text = Empty | Then(c: Scalar, rest: Text)

  function Utf8Text(t: Text): seq<Byte> {
    if t.Empty? then [] else Utf8(t.c) + Utf8Text(t.rest)
  }

  function Utf16Text(t: Text): seq<nat> {
    if t.Empty? then [] else Utf16(t.c) + Utf16Text(t.rest)
  }

  lemma {:induction false} SplitAt(line: seq<Byte>, i: nat, bytes: seq<Byte>, rest: seq<Byte>, c: Char)
    requires i <= |line| && line[i..] == bytes + rest && bytes != [] && LeadByte(bytes[0]) == c && c.len == |bytes|
    ensures i < |line| && CharAt(line, i) == c && i + |bytes| <= |line| && line[i + |bytes|..] == rest
  {
    assert |line| - i == |bytes| + |rest|;
    assert line[i] == line[i..][0] == bytes[0];
    assert line[i + |bytes|..] == line[i..][|bytes|..];
  }

  lemma {:induction false} StepUnits(line: seq<Byte>, i: nat, c: Char, k: nat)
    requires i + c.len <= k <= |line| && i < k && CharAt(line, i) == c
    ensures Units(line, i, k) == c.units + Units(line, i + c.len, k)
    ensures Boundary(line, i, k) == Boundary(line, i + c.len, k)
  {
  }

  /** `bytes` written from `i` on are whole characters that make `units` units. */
  ghost predicate Spans(line: seq<Byte>, i: nat, bytes: seq<Byte>, units: nat) {
    var k := i + |bytes|;
    k <= |line| && Boundary(line, i, k) && Units(line, i, k) == units
  }

  /** One more character in front. */
  lemma {:induction false} SpansMore(line: seq<Byte>, i: nat, bytes: seq<Byte>, rest: seq<Byte>, tail: seq<Byte>, c: Char, units: nat)
    requires i <= |line| && line[i..] == (bytes + rest) + tail
    requires bytes != [] && LeadByte(bytes[0]) == c && c.len == |bytes|
    requires Spans(line, i + |bytes|, rest, units)
    ensures Spans(line, i, bytes + rest, c.units + units)
  {
    assert (bytes + rest) + tail == bytes + (rest + tail);
    SplitAt(line, i, bytes, rest + tail, c);
    StepUnits(line, i, c, i + |bytes + rest|);
  }

  lemma {:induction false} AfterFirst(line: seq<Byte>, i: nat, bytes: seq<Byte>, rest: seq<Byte>, tail: seq<Byte>)
    requires i <= |line| && line[i..] == (bytes + rest) + tail
    ensures i + |bytes| <= |line| && line[i + |bytes|..] == rest + tail
  {
    assert |line| - i == |bytes| + |rest| + |tail|;
    assert line[i + |bytes|..] == line[i..][|bytes|..];
  }

  lemma {:induction false} EncodedUnits(line: seq<Byte>, i: nat, t: Text, tail: seq<Byte>)
    requires i <= |line| && line[i..] == Utf8Text(t) + tail
    ensures Spans(line, i, Utf8Text(t), |Utf16Text(t)|)
    decreases t
  {
    if t.Then? {
      var bytes := Utf8(t.c);
      AfterFirst(line, i, bytes, Utf8Text(t.rest), tail);
      EncodedUnits(line, i + |bytes|, t.rest, tail);
      SpansMore(line, i, bytes, Utf8Text(t.rest), tail, LeadByte(bytes[0]), |Utf16Text(t.rest)|);
    }
  }

  /** Main result: after any valid UTF-8 text the column is the text's length in UTF-16. */
  lemma {:induction false} ColumnIsUtf16Length(t: Text, tail: seq<Byte>)
    ensures
      var line, k := Utf8Text(t) + tail, |Utf8Text(t)|;
      Boundary(line, 0, k) && Column(line, k) == |Utf16Text(t)|
  {
    var line := Utf8Text(t) + tail;
    assert line[0..] == line;
    EncodedUnits(line, 0, t, tail);
  }
}
