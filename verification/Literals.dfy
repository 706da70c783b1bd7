/**
 Numeric literals: the scanner of lib/Lex/NumberLiteral.cpp, and the reader of
 lib/Lower/ASTToMLIR.cpp that turns a token's spelling into a value and a width.
 */
module Literals {
  import opened Powers
  import opened Wrappers
  import opened ExprSyntax

  // ----- Digits -----

  predicate IsDec(c: char) {
    '0' <= c <= '9'
  }

  predicate IsHex(c: char) {
    IsDec(c) || 'a' <= c <= 'f' || 'A' <= c <= 'F'
  }

  predicate IsMarker(c: char) {
    c in {'z', 'Z', 'x', 'X', 'u', 'U'}
  }

  function Base(kind: LitKind): (b: nat)
    ensures b >= 2
  {
    match kind
    case Binary => 2
    case Octal => 8
    case Hex => 16
    case _ => 10
  }

  /** What one digit is worth; the unknown-value markers are worth nothing. */
  function Digit(c: char): Option<nat> {
    if IsDec(c) then Some(c as int - '0' as int)
    else if 'a' <= c <= 'f' then Some(c as int - 'a' as int + 10)
    else if 'A' <= c <= 'F' then Some(c as int - 'A' as int + 10)
    else if IsMarker(c) then Some(0)
    else None
  }

  /** A character the reader accepts between the digits of a value. */
  predicate Readable(c: char, base: nat) {
    c == '_' || (Digit(c).Some? && Digit(c).value < base)
  }

  predicate AllReadable(s: string, base: nat) {
    forall i :: 0 <= i < |s| ==> Readable(s[i], base)
  }

  function CountDigits(s: string): nat {
    if s == "" then 0 else (if s[0] == '_' then 0 else 1) + CountDigits(s[1..])
  }

  /** The positional sum: each digit times the base to the number of digits after it. */
  function Positional(s: string, base: nat): nat
    requires AllReadable(s, base)
  {
    if s == "" then 0
    else if s[0] == '_' then Positional(s[1..], base)
    else Digit(s[0]).value * Pow(base, CountDigits(s[1..])) + Positional(s[1..], base)
  }

  lemma {:induction false} CountAppends(s: string, c: char)
    ensures CountDigits(s + [c]) == CountDigits(s) + (if c == '_' then 0 else 1)
  {
    if s != "" {
      CountAppends(s[1..], c);
      assert (s + [c])[1..] == s[1..] + [c];
    }
  }

  lemma ShiftSum(base: nat, d: nat, p: nat, v: nat)
    ensures d * (base * p) + v * base == (d * p + v) * base
  {
  }

  /** One more digit multiplies by the base and adds it. */
  lemma {:induction false} PositionalAppends(s: string, c: char, base: nat)
    requires AllReadable(s + [c], base)
    ensures AllReadable(s, base) && Readable(c, base)
    ensures Positional(s + [c], base) ==
      if c == '_' then Positional(s, base) else Positional(s, base) * base + Digit(c).value
  {
    assert (s + [c])[|s|] == c;
    assert forall i :: 0 <= i < |s| ==> (s + [c])[i] == s[i];
    if s != "" {
      var tail := s[1..];
      assert (s + [c])[1..] == tail + [c];
      assert forall i :: 0 <= i < |tail + [c]| ==> (tail + [c])[i] == (s + [c])[i + 1];
      PositionalAppends(tail, c, base);
      CountAppends(tail, c);
      if c != '_' && s[0] != '_' {
        ShiftSum(base, Digit(s[0]).value, Pow(base, CountDigits(tail)), Positional(tail, base));
      }
    } else {
      assert [c][1..] == "";
      assert s + [c] == [c];
    }
  }

  // ----- Reading a spelling -----

  datatype Numeral = Malformed | Numeral(value: int, width: nat, sized: bool)

  function TickAt(s: string, i: nat): (k: nat)
    requires i <= |s|
    ensures i <= k <= |s|
    ensures k < |s| ==> s[k] == '\''
    ensures forall j :: i <= j < k ==> s[j] != '\''
    decreases |s| - i
  {
    if i == |s| || s[i] == '\'' then i else TickAt(s, i + 1)
  }

  predicate IsRadix(c: char) {
    c in {'b', 'B', 'o', 'O', 'd', 'D', 'h', 'H'}
  }

  /** A width's characters are decimal digits and `_`, never markers. */
  predicate AllWidthChars(s: string) {
    forall i :: 0 <= i < |s| ==> IsDec(s[i]) || s[i] == '_'
  }

  lemma WidthCharsReadable(s: string)
    requires AllWidthChars(s)
    ensures AllReadable(s, 10)
  {
  }

  /** The explicit width, in 32-bit arithmetic; a zero width is taken as one. */
  function SizeOf(s: string): Option<nat> {
    if !AllWidthChars(s) then None else
    WidthCharsReadable(s);
    var w := Low32(Positional(s, 10));
    Some(if w == 0 then 1 else w)
  }

  function DropRadix(s: string): string {
    if s != "" && IsRadix(s[0]) then s[1..] else s
  }

  function ReadValue(s: string, kind: LitKind, width: nat, sized: bool): Numeral {
    if AllReadable(s, Base(kind)) then Numeral(Wrap64(Positional(s, Base(kind))), width, sized) else Malformed
  }

  /** What the lowering makes of a literal's spelling. */
  function ReadNumeral(kind: LitKind, s: string): Numeral {
    if s == "" || kind.Text? then Malformed else
    var tick := TickAt(s, 0);
    if tick == |s| then ReadValue(s, kind, 0, false)
    else match SizeOf(s[..tick])
      case None => Malformed
      case Some(w) => ReadValue(DropRadix(s[tick + 1..]), kind, w, true)
  }

  /** The width prefix, digit by digit in 32-bit arithmetic. */
  method ReadSize(s: string) returns (r: Option<nat>)
    ensures r == SizeOf(s)
  {
    var w: nat, i := 0, 0;
    while i < |s|
      invariant 0 <= i <= |s|
      invariant AllWidthChars(s[..i])
      invariant AllReadable(s[..i], 10) && w == Low32(Positional(s[..i], 10))
    {
      var c := s[i];
      assert s[..i + 1] == s[..i] + [c];
      if c != '_' {
        if !IsDec(c) {
          return None;
        }
        Low32Step(Positional(s[..i], 10), 10, Digit(c).value);
        w := Low32(w * 10 + (c as int - '0' as int));
      }
      PositionalAppends(s[..i], c, 10);
      i := i + 1;
    }
    assert s[..i] == s;
    return Some(if w == 0 then 1 else w);
  }

  lemma {:induction false} DigitStep(s: string, i: nat, base: nat)
    requires i < |s| && AllReadable(s[..i], base) && Readable(s[i], base)
    ensures AllReadable(s[..i + 1], base)
    ensures Positional(s[..i + 1], base) ==
      if s[i] == '_' then Positional(s[..i], base) else Positional(s[..i], base) * base + Digit(s[i]).value
  {
    assert s[..i + 1] == s[..i] + [s[i]];
    assert AllReadable(s[..i] + [s[i]], base);
    PositionalAppends(s[..i], s[i], base);
  }

  /** One more digit in 64 bits. */
  lemma {:induction false} DigitStep64(s: string, i: nat, base: nat, value: int)
    requires i < |s| && AllReadable(s[..i], base) && Readable(s[i], base) && s[i] != '_'
    requires value == Wrap64(Positional(s[..i], base))
    ensures AllReadable(s[..i + 1], base)
    ensures Wrap64(value * base + Digit(s[i]).value) == Wrap64(Positional(s[..i + 1], base))
  {
    DigitStep(s, i, base);
    WrapStep(Positional(s[..i], base), base, Digit(s[i]).value);
  }

  /** The value digits, in 64-bit two's-complement arithmetic. */
  method ReadDigits(s: string, kind: LitKind, width: nat, sized: bool) returns (r: Numeral)
    ensures r == ReadValue(s, kind, width, sized)
  {
    var base := Base(kind);
    var value, i := 0, 0;
    while i < |s|
      invariant 0 <= i <= |s|
      invariant AllReadable(s[..i], base) && value == Wrap64(Positional(s[..i], base))
    {
      var c := s[i];
      if c != '_' && (Digit(c).None? || Digit(c).value >= base) {
        assert !Readable(s[i], base);
        return Malformed;
      }
      if c == '_' {
        DigitStep(s, i, base);
      } else {
        DigitStep64(s, i, base, value);
        value := Wrap64(value * base + Digit(c).value);
      }
      i := i + 1;
    }
    assert s[..i] == s;
    return Numeral(value, width, sized);
  }

  method ParseNumericLiteral(kind: LitKind, s: string) returns (r: Numeral)
    ensures r == ReadNumeral(kind, s)
  {
    if s == "" || kind.Text? {
      return Malformed;
    }
    var tick := TickAt(s, 0);
    if tick == |s| {
      r := ReadDigits(s, kind, 0, false);
    } else {
      var size := ReadSize(s[..tick]);
      match size
      case None => r := Malformed;
      case Some(w) => r := ReadDigits(DropRadix(s[tick + 1..]), kind, w, true);
    }
  }

  // ----- Scanning -----

  /** What a loop of the scanner runs over. */
  predicate InRun(c: char, base: nat) {
    c == '_' ||
    match base
      case 2 => IsMarker(c) || c == '0' || c == '1'
      case 8 => IsMarker(c) || '0' <= c <= '7'
      case 16 => IsMarker(c) || IsHex(c)
      case _ => IsDec(c)
  }

  function RunEnd(buf: string, pos: nat, base: nat): (end: nat)
    requires pos <= |buf|
    ensures pos <= end <= |buf|
    ensures forall i :: pos <= i < end ==> InRun(buf[i], base)
    ensures end < |buf| ==> !InRun(buf[end], base)
    decreases |buf| - pos
  {
    if pos < |buf| && InRun(buf[pos], base) then RunEnd(buf, pos + 1, base) else pos
  }

  /** The markers a run holds, which the scanner records as flags. */
  function Markers(s: string): set<char> {
    set c | c in s && IsMarker(c) :: Fold(c)
  }

  function Fold(c: char): char {
    match c
    case 'Z' => 'z'
    case 'X' => 'x'
    case 'U' => 'u'
    case _ => c
  }

  function RadixKind(c: char): Option<LitKind> {
    if c in {'b', 'B'} then Some(Binary)
    else if c in {'o', 'O'} then Some(Octal)
    else if c in {'d', 'D'} then Some(Decimal)
    else if c in {'h', 'H'} then Some(Hex)
    else None
  }

  datatype Scan = NotNumber | Number(kind: LitKind, end: nat, flags: set<char>)

  function ScanNumber(buf: string, cur: nat): Scan {
    if cur >= |buf| || !IsDec(buf[cur]) then NotNumber
    else if buf[cur] == '0' && cur + 1 < |buf| && buf[cur + 1] in {'x', 'X'} then ScanRun(buf, cur + 2, Hex)
    else if buf[cur] == '0' && cur + 1 < |buf| && buf[cur + 1] in {'b', 'B'} then ScanRun(buf, cur + 2, Binary)
    else
      var pos := RunEnd(buf, cur, 10);
      if pos + 1 < |buf| && buf[pos] == '\'' && RadixKind(buf[pos + 1]).Some?
      then ScanRun(buf, pos + 2, RadixKind(buf[pos + 1]).value)
      else Number(Decimal, pos, {})
  }

  function ScanRun(buf: string, pos: nat, kind: LitKind): Scan
    requires pos <= |buf|
  {
    var end := RunEnd(buf, pos, Base(kind));
    Number(kind, end, if kind.Decimal? then {} else Markers(buf[pos..end]))
  }

  /** The value-run loop. Decimal runs use the digit loop, which sets no flags. */
  method ConsumeValueRun(buf: string, start: nat, base: nat) returns (end: nat, flags: set<char>)
    requires start <= |buf| && base in {2, 8, 16}
    ensures end == RunEnd(buf, start, base)
    ensures flags == Markers(buf[start..end])
  {
    end, flags := start, {};
    assert buf[start..end] == "";
    while end < |buf|
      invariant start <= end <= |buf|
      invariant RunEnd(buf, end, base) == RunEnd(buf, start, base)
      invariant flags == Markers(buf[start..end])
    {
      var c := buf[end];
      assert buf[start..end + 1] == buf[start..end] + [c];
      if IsMarker(c) {
        flags := flags + {Fold(c)};
      } else if c != '_' && !InRun(c, base) {
        return;
      }
      end := end + 1;
    }
  }

  method ConsumeDecimalRun(buf: string, start: nat) returns (end: nat)
    requires start <= |buf|
    ensures end == RunEnd(buf, start, 10)
  {
    end := start;
    while end < |buf| && (IsDec(buf[end]) || buf[end] == '_')
      invariant start <= end <= |buf|
      invariant RunEnd(buf, end, 10) == RunEnd(buf, start, 10)
    {
      end := end + 1;
    }
  }

  method ScanNumberAt(buf: string, cur: nat) returns (r: Scan)
    ensures r == ScanNumber(buf, cur)
  {
    if cur >= |buf| || !IsDec(buf[cur]) {
      return NotNumber;
    }
    if buf[cur] == '0' && cur + 1 < |buf| {
      if buf[cur + 1] in {'x', 'X'} {
        var end, flags := ConsumeValueRun(buf, cur + 2, 16);
        return Number(Hex, end, flags);
      }
      if buf[cur + 1] in {'b', 'B'} {
        var end, flags := ConsumeValueRun(buf, cur + 2, 2);
        return Number(Binary, end, flags);
      }
    }
    var pos := ConsumeDecimalRun(buf, cur);
    if pos + 1 < |buf| && buf[pos] == '\'' && RadixKind(buf[pos + 1]).Some? {
      var kind := RadixKind(buf[pos + 1]).value;
      if kind.Decimal? {
        var end := ConsumeDecimalRun(buf, pos + 2);
        return Number(Decimal, end, {});
      }
      var end, flags := ConsumeValueRun(buf, pos + 2, Base(kind));
      return Number(kind, end, flags);
    }
    return Number(Decimal, pos, {});
  }

  // ----- What is scanned is what is read -----

  lemma RunIsReadable(s: string, kind: LitKind)
    requires !kind.Text?
    requires forall i :: 0 <= i < |s| ==> InRun(s[i], Base(kind))
    ensures AllReadable(s, Base(kind))
    ensures '\'' !in s
  {
  }

  lemma NoTick(s: string)
    requires '\'' !in s
    ensures TickAt(s, 0) == |s|
  {
  }

  lemma TickIsAt(s: string, k: nat)
    requires k < |s| && s[k] == '\'' && '\'' !in s[..k]
    ensures TickAt(s, 0) == k
  {
    assert forall j :: 0 <= j < k ==> s[..k][j] == s[j];
  }

  predicate CStyleBinary(s: string) {
    |s| >= 2 && s[0] == '0' && s[1] in {'b', 'B'}
  }

  predicate CStyleHex(s: string) {
    |s| >= 2 && s[0] == '0' && s[1] in {'x', 'X'}
  }

  /** The digits of a spelling that carry its value: after the width and radix, after `0x`, or all. */
  function ValuePart(s: string): string {
    var tick := TickAt(s, 0);
    if tick + 1 < |s| then s[tick + 2..] else if CStyleHex(s) then s[2..] else s
  }

  /**
   The reader takes a scanned token at its face value: the positional sum of its
   digits, exact below 2^63, and the width written before the tick.
   */
  predicate ReadAtFaceValue(kind: LitKind, s: string) {
    var r := ReadNumeral(kind, s);
    var digits := ValuePart(s);
    && r.Numeral?
    && AllReadable(digits, Base(kind))
    && r.value == Wrap64(Positional(digits, Base(kind)))
    && (Positional(digits, Base(kind)) < TWO63 ==> r.value == Positional(digits, Base(kind)))
    && r.sized == ('\'' in s)
    && (r.sized ==> SizeOf(s[..TickAt(s, 0)]) == Some(r.width))
  }

  lemma PlainIsRead(s: string)
    requires s != "" && forall i :: 0 <= i < |s| ==> InRun(s[i], 10)
    ensures ReadAtFaceValue(Decimal, s)
  {
    RunIsReadable(s, Decimal);
    NoTick(s);
  }

  lemma HexIsRead(x: char, run: string)
    requires x in {'x', 'X'} && forall i :: 0 <= i < |run| ==> InRun(run[i], 16)
    ensures ReadAtFaceValue(Hex, ['0', x] + run)
  {
    var s := ['0', x] + run;
    RunIsReadable(run, Hex);
    assert '\'' !in s;
    NoTick(s);
    assert s[2..] == run && s[1..] == [x] + run && s[1..][1..] == run;
    assert AllReadable(s, 16) && AllReadable(s[1..], 16);
    assert Positional(s[1..], 16) == Positional(run, 16);
  }

  lemma BinaryIsRefused(b: char, run: string)
    requires b in {'b', 'B'} && forall i :: 0 <= i < |run| ==> InRun(run[i], 2)
    ensures ReadNumeral(Binary, ['0', b] + run) == Malformed
  {
    var s := ['0', b] + run;
    RunIsReadable(run, Binary);
    assert '\'' !in s;
    NoTick(s);
    assert !Readable(s[1], 2);
  }

  lemma SizedIsRead(size: string, radix: char, run: string)
    requires size != "" && AllWidthChars(size)
    requires RadixKind(radix).Some?
    requires forall i :: 0 <= i < |run| ==> InRun(run[i], Base(RadixKind(radix).value))
    ensures ReadAtFaceValue(RadixKind(radix).value, size + ['\'', radix] + run)
  {
    var kind := RadixKind(radix).value;
    var s := size + ['\'', radix] + run;
    var k := |size|;
    assert s[..k] == size && s[k] == '\'' && s[k + 1..] == [radix] + run && s[k + 2..] == run;
    TickIsAt(s, k);
    assert DropRadix(s[k + 1..]) == run;
    RunIsReadable(run, kind);
  }

  predicate CStyle(buf: string, cur: nat) {
    cur + 1 < |buf| && buf[cur] == '0' && buf[cur + 1] in {'x', 'X', 'b', 'B'}
  }

  lemma CStyleIsRead(buf: string, cur: nat)
    requires CStyle(buf, cur)
    ensures
      var t := ScanNumber(buf, cur);
      && t.Number? && cur < t.end <= |buf|
      && if CStyleBinary(buf[cur..t.end])
         then ReadNumeral(t.kind, buf[cur..t.end]) == Malformed
         else ReadAtFaceValue(t.kind, buf[cur..t.end])
  {
    var t := ScanNumber(buf, cur);
    SliceInRun(buf, cur + 2, t.end, Base(t.kind));
    assert buf[cur..t.end] == ['0', buf[cur + 1]] + buf[cur + 2..t.end];
    if buf[cur + 1] in {'x', 'X'} {
      HexIsRead(buf[cur + 1], buf[cur + 2..t.end]);
    } else {
      BinaryIsRefused(buf[cur + 1], buf[cur + 2..t.end]);
    }
  }

  lemma DecimalLedIsRead(buf: string, cur: nat)
    requires cur < |buf| && IsDec(buf[cur]) && !CStyle(buf, cur)
    ensures
      var t := ScanNumber(buf, cur);
      && t.Number? && cur < t.end <= |buf|
      && ReadAtFaceValue(t.kind, buf[cur..t.end])
  {
    var t := ScanNumber(buf, cur);
    var pos := RunEnd(buf, cur, 10);
    SliceInRun(buf, cur, pos, 10);
    if pos + 1 < |buf| && buf[pos] == '\'' && RadixKind(buf[pos + 1]).Some? {
      var kind := RadixKind(buf[pos + 1]).value;
      assert t.kind == kind && t.end == RunEnd(buf, pos + 2, Base(kind));
      SliceInRun(buf, pos + 2, t.end, Base(kind));
      assert buf[cur..t.end] == buf[cur..pos] + ['\'', buf[pos + 1]] + buf[pos + 2..t.end];
      SizedIsRead(buf[cur..pos], buf[pos + 1], buf[pos + 2..t.end]);
    } else {
      assert t == Number(Decimal, pos, {});
      PlainIsRead(buf[cur..pos]);
    }
  }

  lemma {:induction false} SliceInRun(buf: string, a: nat, b: nat, base: nat)
    requires a <= b <= |buf| && forall i :: a <= i < b ==> InRun(buf[i], base)
    ensures forall i :: 0 <= i < b - a ==> InRun(buf[a..b][i], base)
  {
  }

  /** Main result: the lowering reads every scanned token at its face value, except the C-style binary ones, which it refuses. */
  lemma ScannedIsRead(buf: string, cur: nat)
    requires ScanNumber(buf, cur).Number?
    ensures
      var t := ScanNumber(buf, cur);
      && cur < t.end <= |buf|
      && if CStyleBinary(buf[cur..t.end])
         then ReadNumeral(t.kind, buf[cur..t.end]) == Malformed
         else ReadAtFaceValue(t.kind, buf[cur..t.end])
  {
    if CStyle(buf, cur) {
      CStyleIsRead(buf, cur);
    } else {
      DecimalLedIsRead(buf, cur);
    }
  }

  // ----- The base, by what is written -----

  const DIGITS: string := "0123456789abcdef"
  const CAPITALS: string := "0123456789ABCDEF"

  /** `c` is one of the first `base` digits, in either case. */
  predicate IsDigitOf(c: char, base: nat) {
    base <= 16 && (c in DIGITS[..base] || c in CAPITALS[..base])
  }

  /** A digit is worth its place among the digits. */
  lemma {:induction false} DigitIsPlace(i: nat)
    requires i < 16
    ensures Digit(DIGITS[i]) == Some(i) && Digit(CAPITALS[i]) == Some(i)
  {
    if i == 0 {} else if i == 1 {} else if i == 2 {} else if i == 3 {} else if i == 4 {} else if i == 5 {}
    else if i == 6 {} else if i == 7 {} else if i == 8 {} else if i == 9 {} else if i == 10 {} else if i == 11 {}
    else if i == 12 {} else if i == 13 {} else if i == 14 {} else {}
  }

  lemma {:induction false} DigitIsInRun(c: char, base: nat)
    requires base in {2, 8, 10, 16} && IsDigitOf(c, base)
    ensures InRun(c, base) && c != '_'
  {
    var i :| 0 <= i < base && (DIGITS[i] == c || CAPITALS[i] == c);
    DigitIsPlace(i);
  }

  lemma {:induction false} RunEndIs(buf: string, pos: nat, end: nat, base: nat)
    requires pos <= end <= |buf| && (forall i :: pos <= i < end ==> InRun(buf[i], base))
    requires end < |buf| ==> !InRun(buf[end], base)
    ensures RunEnd(buf, pos, base) == end
    decreases end - pos
  {
    if pos < end {
      RunEndIs(buf, pos + 1, end, base);
    }
  }

  /** The letter after the tick and the base it stands for. */
  const RADIXES: map<char, nat> :=
    map['b' := 2, 'B' := 2, 'o' := 8, 'O' := 8, 'd' := 10, 'D' := 10, 'h' := 16, 'H' := 16]

  lemma {:induction false} RadixIsBase(radix: char)
    ensures RadixKind(radix).Some? <==> radix in RADIXES
    ensures radix in RADIXES ==> Base(RadixKind(radix).value) == RADIXES[radix]
  {
  }

  lemma {:induction false} SizedScans(size: string, radix: char, run: string, base: nat)
    requires size != "" && (forall i :: 0 <= i < |size| ==> IsDec(size[i]))
    requires radix in RADIXES && RADIXES[radix] == base && (forall i :: 0 <= i < |run| ==> InRun(run[i], base))
    ensures
      var s := size + ['\'', radix] + run;
      var t := ScanNumber(s, 0);
      t.Number? && t.end == |s| && RadixKind(radix) == Some(t.kind)
  {
    var s := size + ['\'', radix] + run;
    RadixIsBase(radix);
    assert forall i :: 0 <= i < |size| ==> s[i] == size[i];
    assert s[|size|] == '\'' && s[|size| + 1] == radix;
    RunEndIs(s, 0, |size|, 10);
    assert forall i :: |size| + 2 <= i < |s| ==> s[i] == run[i - |size| - 2];
    RunEndIs(s, |size| + 2, |s|, base);
  }

  /** Main result: a sized literal is one token, read in the base its letter stands for. */
  lemma {:induction false} LetterIsBase(size: string, radix: char, run: string, base: nat)
    requires size != "" && (forall i :: 0 <= i < |size| ==> IsDec(size[i]))
    requires radix in RADIXES && RADIXES[radix] == base && (forall i :: 0 <= i < |run| ==> IsDigitOf(run[i], base))
    ensures
      var s := size + ['\'', radix] + run;
      var t := ScanNumber(s, 0);
      && t.Number? && t.end == |s| && AllReadable(run, base)
      && ReadNumeral(t.kind, s).Numeral? && ReadNumeral(t.kind, s).value == Wrap64(Positional(run, base))
  {
    forall i | 0 <= i < |run| ensures InRun(run[i], base) {
      DigitIsInRun(run[i], base);
    }
    SizedScans(size, radix, run, base);
    RadixIsBase(radix);
    SizedIsRead(size, radix, run);
    var s, k := size + ['\'', radix] + run, |size|;
    assert s[k] == '\'' && s[k + 2..] == run && s[..k] == size;
    TickIsAt(s, k);
  }

  lemma {:induction false} Unsized(kind: LitKind, s: string)
    requires s != "" && !kind.Text? && '\'' !in s
    ensures ReadNumeral(kind, s) == ReadValue(s, kind, 0, false)
  {
    NoTick(s);
  }

  /** Main result: digits with neither a tick nor a prefix are read in base ten. */
  lemma {:induction false} PlainIsBaseTen(run: string)
    requires run != "" && (forall i :: 0 <= i < |run| ==> IsDec(run[i]))
    ensures
      var t := ScanNumber(run, 0);
      && t.Number? && t.end == |run| && AllReadable(run, 10)
      && ReadNumeral(t.kind, run) == Numeral(Wrap64(Positional(run, 10)), 0, false)
  {
    RunEndIs(run, 0, |run|, 10);
    RunIsReadable(run, Decimal);
    Unsized(Decimal, run);
  }

  lemma {:induction false} HexScans(x: char, run: string)
    requires x in {'x', 'X'} && (forall i :: 0 <= i < |run| ==> InRun(run[i], 16))
    ensures
      var t := ScanNumber(['0', x] + run, 0);
      t.Number? && t.end == |run| + 2 && t.kind == Hex
  {
    var s := ['0', x] + run;
    assert forall i :: 2 <= i < |s| ==> s[i] == run[i - 2];
    RunEndIs(s, 2, |s|, 16);
  }

  lemma {:induction false} HexReads(x: char, run: string)
    requires x in {'x', 'X'} && (forall i :: 0 <= i < |run| ==> InRun(run[i], 16))
    ensures AllReadable(run, 16)
    ensures ReadNumeral(Hex, ['0', x] + run) == Numeral(Wrap64(Positional(run, 16)), 0, false)
  {
    var s := ['0', x] + run;
    RunIsReadable(run, Hex);
    assert s[1..] == [x] + run && s[1..][1..] == run;
    Unsized(Hex, s);
    HexIsRead(x, run);
  }

  /** Main result: digits after `0x` are read in base sixteen. */
  lemma {:induction false} PrefixIsBaseSixteen(x: char, run: string)
    requires x in {'x', 'X'} && (forall i :: 0 <= i < |run| ==> IsDigitOf(run[i], 16))
    ensures
      var s := ['0', x] + run;
      var t := ScanNumber(s, 0);
      && t.Number? && t.end == |s| && AllReadable(run, 16)
      && ReadNumeral(t.kind, s) == Numeral(Wrap64(Positional(run, 16)), 0, false)
  {
    forall i | 0 <= i < |run| ensures InRun(run[i], 16) {
      DigitIsInRun(run[i], 16);
    }
    HexScans(x, run);
    HexReads(x, run);
  }

  // ----- Widths -----

  /** The number of bits of a positive number, one for the rest. */
  function BitLength(v: int): (w: nat)
    ensures w >= 1
    ensures v > 0 ==> Pow2(w - 1) <= v < Pow2(w)
    ensures v <= 0 ==> w == 1
  {
    if v <= 1 then 1 else BitLength(v / 2) + 1
  }

  /** The bounds determine the width. */
  lemma BitLengthUnique(v: int, w: nat)
    requires w >= 1 && Pow2(w - 1) <= v < Pow2(w)
    ensures BitLength(v) == w
  {
    var b := BitLength(v);
    if b < w {
      Pow2Grows(b, w - 1);
    } else if w < b {
      Pow2Grows(w, b - 1);
    }
  }

  method MinUnsignedWidth(value: int) returns (w: nat)
    ensures w == BitLength(value)
  {
    if value <= 0 {
      return 1;
    }
    w := 0;
    var u := value;
    while u > 0
      invariant 0 <= u
      invariant u > 0 ==> w + BitLength(u) == BitLength(value)
      invariant u == 0 ==> w == BitLength(value)
    {
      w := w + 1;
      u := u / 2;
    }
  }

  /** A plain run of decimal digits, with nothing else in it. */
  predicate PlainDecimal(kind: LitKind, s: string) {
    kind.Decimal? && AllDec(s)
  }

  /** A literal as it is written: its value, the size before the tick, and whether it is nothing but decimal digits. */
  datatype Lit = Unreadable | Spelling(face: nat, size: Option<nat>, plain: bool)

  function LitOf(kind: LitKind, s: string): Lit {
    if s == "" || kind.Text? then Unreadable else
    var tick := TickAt(s, 0);
    if tick == |s| then
      if AllReadable(s, Base(kind)) then Spelling(Positional(s, Base(kind)), None, PlainDecimal(kind, s)) else Unreadable
    else
      var digits := DropRadix(s[tick + 1..]);
      if AllWidthChars(s[..tick]) && AllReadable(digits, Base(kind)) then
        WidthCharsReadable(s[..tick]);
        Spelling(Positional(digits, Base(kind)), Some(Positional(s[..tick], 10)), false)
      else Unreadable
  }

  /** What the code makes of a literal: the value in 64 bits, the size in 32 with 1 for zero. */
  function NumeralOf(lit: Lit): Numeral {
    if lit.Unreadable? then Malformed
    else if lit.size.None? then Numeral(Wrap64(lit.face), 0, false)
    else Numeral(Wrap64(lit.face), if Low32(lit.size.value) == 0 then 1 else Low32(lit.size.value), true)
  }

  /** The reader's result is determined by what is written. */
  lemma {:induction false} ReadAsWritten(kind: LitKind, s: string)
    ensures ReadNumeral(kind, s) == NumeralOf(LitOf(kind, s))
  {
  }

  lemma {:induction false} PlainLit(kind: LitKind, s: string)
    ensures PlainDecimal(kind, s) && s != "" ==>
      AllReadable(s, 10) && LitOf(kind, s) == Spelling(Positional(s, 10), None, true)
    ensures !PlainDecimal(kind, s) || s == "" ==> LitOf(kind, s).Unreadable? || !LitOf(kind, s).plain
  {
    if PlainDecimal(kind, s) && s != "" {
      WidthCharsReadable(s);
      NoTick(s);
    }
  }

  /** A sized literal is its digits and its size. */
  lemma {:induction false} SizedLit(size: string, radix: char, run: string)
    requires size != "" && AllWidthChars(size) && RadixKind(radix).Some?
    requires forall i :: 0 <= i < |run| ==> InRun(run[i], Base(RadixKind(radix).value))
    ensures AllReadable(size, 10) && AllReadable(run, Base(RadixKind(radix).value))
    ensures LitOf(RadixKind(radix).value, size + ['\'', radix] + run) ==
      Spelling(Positional(run, Base(RadixKind(radix).value)), Some(Positional(size, 10)), false)
  {
    var s, k := size + ['\'', radix] + run, |size|;
    WidthCharsReadable(size);
    RunIsReadable(run, RadixKind(radix).value);
    assert s[..k] == size && s[k] == '\'' && s[k + 1..] == [radix] + run;
    TickIsAt(s, k);
    assert DropRadix(s[k + 1..]) == run;
  }

  /** The width a literal stands for before `#` or `'`: in 32 bits, 1 for zero and for anything but a plain decimal. */
  function WidthOf(lit: Lit): (w: nat)
    ensures w >= 1
    ensures lit.Spelling? && lit.plain && 1 <= lit.face < TWO32 ==> w == lit.face
  {
    var w := if lit.Spelling? && lit.plain then Low32(lit.face) else 1;
    if w == 0 then 1 else w
  }

  /** The index or count a literal stands for: in 64 bits, 0 for anything but a plain decimal. */
  function IndexOf(lit: Lit): (i: int)
    ensures lit.Spelling? && lit.plain && lit.face < TWO63 ==> i == lit.face
  {
    if lit.Spelling? && lit.plain then Wrap64(lit.face) else 0
  }

  /** Main result: the index taken is the number written, in whatever base and size, if and only if it is a plain decimal below 2^63, or zero. */
  lemma {:induction false} IndexIsWrittenIff(lit: Lit)
    requires lit.Spelling?
    ensures IndexOf(lit) == lit.face <==> (lit.plain && lit.face < TWO63) || lit.face == 0
  {
  }

  /** Main result: so is a width, if and only if it is a plain decimal from 1 to 2^32 - 1, or one. */
  lemma {:induction false} WidthIsWrittenIff(lit: Lit)
    requires lit.Spelling?
    ensures WidthOf(lit) == lit.face <==> (lit.plain && 1 <= lit.face < TWO32) || lit.face == 1
  {
  }

  predicate AllDec(s: string) {
    forall i :: 0 <= i < |s| ==> IsDec(s[i])
  }

  lemma {:induction false} DecStep(s: string, i: nat)
    requires i < |s| && AllReadable(s[..i], 10) && IsDec(s[i])
    ensures AllReadable(s[..i + 1], 10)
    ensures Positional(s[..i + 1], 10) == Positional(s[..i], 10) * 10 + (s[i] as int - '0' as int)
  {
    DigitStep(s, i, 10);
  }

  /** The digit loop in 32 bits; none if something is not a digit. */
  method Decimal32(s: string) returns (w: Option<nat>)
    ensures w.Some? <==> AllDec(s)
    ensures w.Some? ==> AllReadable(s, 10) && w.value == Low32(Positional(s, 10))
  {
    var i, value := 0, 0;
    while i < |s|
      invariant 0 <= i <= |s| && forall j :: 0 <= j < i ==> IsDec(s[j])
      invariant AllReadable(s[..i], 10) && value == Low32(Positional(s[..i], 10))
    {
      if !IsDec(s[i]) {
        return None;
      }
      DecStep(s, i);
      Low32Step(Positional(s[..i], 10), 10, s[i] as int - '0' as int);
      value := Low32(value * 10 + (s[i] as int - '0' as int));
      i := i + 1;
    }
    assert s[..i] == s;
    return Some(value);
  }

  /** The digit loop in 64 bits. */
  method Decimal64(s: string) returns (v: Option<int>)
    ensures v.Some? <==> AllDec(s)
    ensures v.Some? ==> AllReadable(s, 10) && v.value == Wrap64(Positional(s, 10))
  {
    var i, value := 0, 0;
    while i < |s|
      invariant 0 <= i <= |s| && forall j :: 0 <= j < i ==> IsDec(s[j])
      invariant AllReadable(s[..i], 10) && value == Wrap64(Positional(s[..i], 10))
    {
      if !IsDec(s[i]) {
        return None;
      }
      DigitStep64(s, i, 10, value);
      value := Wrap64(value * 10 + (s[i] as int - '0' as int));
      i := i + 1;
    }
    assert s[..i] == s;
    return Some(value);
  }

  method ResolveWidth(kind: LitKind, s: string) returns (w: nat)
    ensures w == WidthOf(LitOf(kind, s))
  {
    PlainLit(kind, s);
    if !kind.Decimal? {
      return 1;
    }
    var value := Decimal32(s);
    assert s == "" ==> value == Some(0);
    return if value.None? || value.value == 0 then 1 else value.value;
  }

  method ResolveDecimalLiteral(kind: LitKind, s: string) returns (v: int)
    ensures v == IndexOf(LitOf(kind, s))
  {
    PlainLit(kind, s);
    if !kind.Decimal? {
      return 0;
    }
    var value := Decimal64(s);
    assert s == "" ==> value == Some(0);
    return if value.None? then 0 else value.value;
  }
}
