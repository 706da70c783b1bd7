/**
 Lines of a source buffer and the `#line` directives replayed onto it
 (lib/Basic/SourceManager.cpp, and replayLineDirectives of
 lib/Driver/EmitAST.cpp), against a plain line-by-line scan.
 */
module SourceLines {
  import opened Wrappers
  import opened Powers
  import opened Literals
  import opened TextLines

  // ----- Physical lines -----

  function Newlines(s: string, off: nat): nat
    requires off <= |s|
  {
    if off == 0 then 0 else Newlines(s, off - 1) + (if s[off - 1] == '\n' then 1 else 0)
  }

  /** Where the line holding `off` begins. */
  function LineBegin(s: string, off: nat): (b: nat)
    requires off <= |s|
    ensures b <= off
    ensures forall i :: b <= i < off ==> s[i] != '\n'
    ensures b > 0 ==> s[b - 1] == '\n'
  {
    if off == 0 || s[off - 1] == '\n' then off else LineBegin(s, off - 1)
  }

  /** The offsets where lines begin, up to `n`. */
  function LineStarts(s: string, n: nat): (t: seq<nat>)
    requires n <= |s|
    ensures |t| == Newlines(s, n) + 1 && t[0] == 0
    ensures forall i :: 0 <= i < |t| ==> t[i] <= n
  {
    if n == 0 then [0]
    else if s[n - 1] == '\n' then LineStarts(s, n - 1) + [n]
    else LineStarts(s, n - 1)
  }

  /** How many of the offsets are not above `off`. */
  function UpperBound(t: seq<nat>, off: nat): (k: nat)
    ensures k <= |t|
  {
    if t == [] || t[|t| - 1] <= off then |t| else UpperBound(t[..|t| - 1], off)
  }

  /** Main result: the search in the table finds the line by its newlines, and its first column by its start. */
  lemma {:induction false} TableFindsLine(s: string, n: nat, off: nat)
    requires off <= n <= |s|
    ensures
      var t := LineStarts(s, n);
      var k := UpperBound(t, off);
      k == Newlines(s, off) + 1 && t[k - 1] == LineBegin(s, off)
    decreases n
  {
    var t := LineStarts(s, n);
    if off == n {
      LastStart(s, n);
    } else {
      TableFindsLine(s, n - 1, off);
      if s[n - 1] == '\n' {
        assert t[..|t| - 1] == LineStarts(s, n - 1);
      }
    }
  }

  lemma {:induction false} LastStart(s: string, n: nat)
    requires n <= |s|
    ensures
      var t := LineStarts(s, n);
      t[|t| - 1] == LineBegin(s, n)
  {
    if n > 0 && s[n - 1] != '\n' {
      LastStart(s, n - 1);
    }
  }

  lemma {:induction false} SameLine(s: string, b: nat, off: nat)
    requires b <= off <= |s| && forall i :: b <= i < off ==> s[i] != '\n'
    ensures Newlines(s, off) == Newlines(s, b) && LineBegin(s, off) == LineBegin(s, b)
    decreases off
  {
    if b < off {
      SameLine(s, b, off - 1);
    }
  }

  // ----- Overrides -----

  type Word = n: int | 0 <= n < 0x1_0000_0000

  datatype Override = Override(origin: nat, line: Word, path: string)
  datatype Place = Place(path: string, line: nat, col: nat)

  /** The last override not above `off`. */
  function Active(os: seq<Override>, off: nat): Option<Override> {
    if os == [] then None
    else if os[|os| - 1].origin <= off then Some(os[|os| - 1])
    else Active(os[..|os| - 1], off)
  }

  function PathOf(o: Option<Override>, own: string): string {
    if o.None? || o.value.path == "" then own else o.value.path
  }

  /** The line at `off` counted on from an override's own line, in 32 bits. */
  function LineOf(o: Option<Override>, s: string, off: nat): nat
    requires off <= |s|
  {
    if o.None? then Newlines(s, off) + 1
    else Low32(o.value.line + (Newlines(s, off) - Newlines(s, if o.value.origin <= |s| then o.value.origin else |s|)))
  }

  predicate Ascending(os: seq<Override>, upTo: nat) {
    && (forall i :: 0 <= i < |os| ==> os[i].origin <= upTo)
    && (forall i, j :: 0 <= i < j < |os| ==> os[i].origin < os[j].origin)
  }

  function Resolve(s: string, own: string, os: seq<Override>, off: nat): Place
    requires off <= |s|
  {
    var o := Active(os, off);
    Place(PathOf(o, own), LineOf(o, s, off), off - LineBegin(s, off) + 1)
  }

  // ----- Reading a `#line` line -----

  datatype Class = Blanks | Digits | Unquoted

  predicate In(c: char, cls: Class) {
    match cls
    case Blanks => c == ' ' || c == '\t'
    case Digits => IsDec(c)
    case Unquoted => c != '"'
  }

  function ScanEnd(s: string, i: nat, cls: Class): (j: nat)
    requires i <= |s|
    ensures i <= j <= |s|
    ensures forall k :: i <= k < j ==> In(s[k], cls)
    ensures j < |s| ==> !In(s[j], cls)
    decreases |s| - i
  {
    if i < |s| && In(s[i], cls) then ScanEnd(s, i + 1, cls) else i
  }

  const PREFIX: string := "#line "

  datatype Directive = Directive(line: Word, path: string)

  function QuotedAt(line: string, k: nat): string
    requires k <= |line|
  {
    if k < |line| && line[k] == '"' && ScanEnd(line, k + 1, Unquoted) < |line|
    then line[k + 1..ScanEnd(line, k + 1, Unquoted)]
    else ""
  }

  /** The line number, in 32 bits, and the path in quotes, if the line is a `#line` directive with a number. */
  function ReadDirective(line: string): Option<Directive> {
    if !(PREFIX <= line) then None else
    var i := ScanEnd(line, |PREFIX|, Blanks);
    var j := ScanEnd(line, i, Digits);
    if i == j then None else
    WidthCharsReadable(line[i..j]);
    Some(Directive(Low32(Positional(line[i..j], 10)), QuotedAt(line, ScanEnd(line, j, Blanks))))
  }

  lemma {:induction false} ScanEndIs(s: string, i: nat, j: nat, cls: Class)
    requires i <= j <= |s| && (forall k :: i <= k < j ==> In(s[k], cls)) && (j < |s| ==> !In(s[j], cls))
    ensures ScanEnd(s, i, cls) == j
  {
  }

  /** The line the preprocessor writes for a number and a file name. */
  function DirectiveText(digits: string, path: string): string {
    PREFIX + digits + " \"" + path + "\""
  }

  /** Main result: a directive as the preprocessor writes it reads back as its number and path. */
  lemma {:induction false} DirectiveReadsBack(digits: string, path: string)
    requires digits != "" && (forall i :: 0 <= i < |digits| ==> IsDec(digits[i])) && '"' !in path
    ensures AllReadable(digits, 10)
    ensures ReadDirective(DirectiveText(digits, path)) == Some(Directive(Low32(Positional(digits, 10)), path))
  {
    WidthCharsReadable(digits);
    var line := DirectiveText(digits, path);
    DirectiveLayout(digits, path);
    LineReads(line, |PREFIX| + |digits|, |line| - 1);
  }

  /** Digits up to `j`, a blank, and a path in quotes up to `q`. */
  lemma {:induction false} LineReads(line: string, j: nat, q: nat)
    requires PREFIX <= line && |PREFIX| < j && j + 2 <= q < |line|
    requires forall k :: |PREFIX| <= k < j ==> IsDec(line[k])
    requires line[j] == ' ' && line[j + 1] == '"' && line[q] == '"' && forall k :: j + 2 <= k < q ==> line[k] != '"'
    ensures AllReadable(line[|PREFIX|..j], 10)
    ensures ReadDirective(line) == Some(Directive(Low32(Positional(line[|PREFIX|..j], 10)), line[j + 2..q]))
  {
    WidthCharsReadable(line[|PREFIX|..j]);
    ScanEndIs(line, |PREFIX|, |PREFIX|, Blanks);
    ScanEndIs(line, |PREFIX|, j, Digits);
    ScanEndIs(line, j, j + 1, Blanks);
    QuotedIs(line, j + 1, q);
  }

  lemma {:induction false} QuotedIs(line: string, k: nat, q: nat)
    requires k < q < |line| && line[k] == '"' && line[q] == '"' && forall i :: k < i < q ==> line[i] != '"'
    ensures QuotedAt(line, k) == line[k + 1..q]
  {
    ScanEndIs(line, k + 1, q, Unquoted);
  }

  lemma {:induction false} DirectiveLayout(digits: string, path: string)
    ensures
      var line := DirectiveText(digits, path);
      var j, q := |PREFIX| + |digits|, |line| - 1;
      && PREFIX <= line && line[|PREFIX|..j] == digits && j + 2 <= q && line[j + 2..q] == path
      && line[j] == ' ' && line[j + 1] == '"' && line[q] == '"'
      && (forall k :: |PREFIX| <= k < j ==> line[k] == digits[k - |PREFIX|])
      && (forall k :: j + 2 <= k < q ==> line[k] == path[k - j - 2])
  {
  }

  method ParseDirective(line: string) returns (d: Option<Directive>)
    ensures d == ReadDirective(line)
  {
    if !(PREFIX <= line) {
      return None;
    }
    var i := |PREFIX|;
    while i < |line| && In(line[i], Blanks)
      invariant |PREFIX| <= i <= |line| && ScanEnd(line, i, Blanks) == ScanEnd(line, |PREFIX|, Blanks)
    {
      i := i + 1;
    }
    if i >= |line| || !IsDec(line[i]) {
      return None;
    }
    var j := ScanEnd(line, i, Digits);
    var ln := ReadDigitsOf(line, i);
    i := j;
    while i < |line| && In(line[i], Blanks)
      invariant j <= i <= |line| && ScanEnd(line, i, Blanks) == ScanEnd(line, j, Blanks)
    {
      i := i + 1;
    }
    var path := ReadQuoted(line, i);
    return Some(Directive(Low32(ln), path));
  }

  method ReadQuoted(line: string, i: nat) returns (path: string)
    requires i <= |line|
    ensures path == QuotedAt(line, i)
  {
    path := "";
    if i < |line| && line[i] == '"' {
      var k := i + 1;
      while k < |line| && line[k] != '"'
        invariant i < k <= |line| && ScanEnd(line, k, Unquoted) == ScanEnd(line, i + 1, Unquoted)
      {
        k := k + 1;
      }
      if k < |line| {
        path := line[i + 1..k];
      }
    }
  }

  lemma {:induction false} DigitRunStep(line: string, start: nat, i: nat)
    requires start <= i < |line| && AllReadable(line[start..i], 10) && IsDec(line[i])
    ensures AllReadable(line[start..i + 1], 10)
    ensures Positional(line[start..i + 1], 10) == Positional(line[start..i], 10) * 10 + (line[i] as int - '0' as int)
  {
    assert line[start..i + 1] == line[start..i] + [line[i]];
    assert AllReadable(line[start..i] + [line[i]], 10);
    PositionalAppends(line[start..i], line[i], 10);
  }

  /** The number spelled by the digits from `start` on. */
  method ReadDigitsOf(line: string, start: nat) returns (ln: nat)
    requires start <= |line|
    ensures
      var digits := line[start..ScanEnd(line, start, Digits)];
      AllReadable(digits, 10) && ln == Positional(digits, 10)
  {
    var i := start;
    ln := 0;
    assert line[start..start] == "";
    while i < |line| && IsDec(line[i])
      invariant start <= i <= |line| && ScanEnd(line, i, Digits) == ScanEnd(line, start, Digits)
      invariant AllReadable(line[start..i], 10) && ln == Positional(line[start..i], 10)
    {
      DigitRunStep(line, start, i);
      ln := ln * 10 + (line[i] as int - '0' as int);
      i := i + 1;
    }
  }

  // ----- Replay -----

  /** Past the line that begins at `b`, its newline included. */
  function NextLine(s: string, b: nat): (n: nat)
    requires b < |s|
    ensures b < n <= |s|
  {
    var e := LineEnd(s, b);
    if e < |s| then e + 1 else e
  }

  /** The directive, if any, on the line that begins at an offset. */
  type Reader = nat -> Option<Directive>

  function DirectivesOf(s: string): Reader {
    (b: nat) => if b <= |s| then ReadDirective(s[b..LineEnd(s, b)]) else None
  }

  function WithLine(s: string, rd: Reader, b: nat, os: seq<Override>): seq<Override>
    requires b < |s|
  {
    if rd(b).None? then os else os + [Override(NextLine(s, b), rd(b).value.line, rd(b).value.path)]
  }

  /** The overrides after the lines from `b` on. */
  function Replayed(s: string, rd: Reader, b: nat, os: seq<Override>): seq<Override>
    requires b <= |s|
    decreases |s| - b
  {
    if b == |s| then os else Replayed(s, rd, NextLine(s, b), WithLine(s, rd, b, os))
  }

  lemma {:induction false} WithLineAscends(s: string, rd: Reader, b: nat, os: seq<Override>)
    requires b < |s| && Ascending(os, b)
    ensures Ascending(WithLine(s, rd, b, os), NextLine(s, b))
  {
  }

  /** Main result: replay keeps the overrides strictly ascending, so every insertion is in order. */
  lemma {:induction false} ReplayAscends(s: string, rd: Reader, b: nat, os: seq<Override>)
    requires b <= |s| && Ascending(os, b)
    ensures Ascending(Replayed(s, rd, b, os), |s|)
    decreases |s| - b
  {
    if b < |s| {
      WithLineAscends(s, rd, b, os);
      ReplayAscends(s, rd, NextLine(s, b), WithLine(s, rd, b, os));
    }
  }

  // ----- The plain scan -----

  /** Walks the lines from the one at `b`, which has the given number and path, to the one that holds `off`. */
  function Scan(s: string, rd: Reader, own: string, b: nat, line: nat, path: string, off: nat): Place
    requires b <= off <= |s|
    decreases |s| - b
  {
    var e := LineEnd(s, b);
    if off <= e then Place(path, line, off - b + 1) else
    match rd(b)
    case None => Scan(s, rd, own, e + 1, Low32(line + 1), path, off)
    case Some(d) => Scan(s, rd, own, e + 1, d.line, if d.path == "" then own else d.path, off)
  }

  /** The last line is a `#line` directive without a newline, and `off` is the end of the buffer. */
  predicate AfterOpenDirective(s: string, rd: Reader, off: nat)
    requires off <= |s|
  {
    off == |s| && LineBegin(s, off) < |s| && rd(LineBegin(s, off)).Some?
  }

  // ----- Replay and plain scan agree -----

  /** Offsets are 24 bits wide. */
  const MAX_OFFSET: nat := 0x100_0000

  lemma {:induction false} NewlinesBounded(s: string, off: nat)
    requires off <= |s|
    ensures Newlines(s, off) <= off
  {
    if off > 0 {
      NewlinesBounded(s, off - 1);
    }
  }

  lemma {:induction false} NewlinesMonotone(s: string, a: nat, b: nat)
    requires a <= b <= |s|
    ensures Newlines(s, a) <= Newlines(s, b)
    decreases b
  {
    if a < b {
      NewlinesMonotone(s, a, b - 1);
    }
  }

  lemma {:induction false} OneNewlineMore(s: string, b: nat, e: nat)
    requires b <= e < |s| && (forall i :: b <= i < e ==> s[i] != '\n') && s[e] == '\n'
    ensures Newlines(s, e + 1) == Newlines(s, b) + 1 && LineBegin(s, e + 1) == e + 1
  {
    SameLine(s, b, e);
  }

  /** Lines from `b` on only add overrides beyond `b`. */
  lemma {:induction false} LaterNotActive(s: string, rd: Reader, b: nat, os: seq<Override>, off: nat)
    requires off <= b <= |s|
    ensures Active(Replayed(s, rd, b, os), off) == Active(os, off)
    decreases |s| - b
  {
    if b < |s| {
      LaterNotActive(s, rd, NextLine(s, b), WithLine(s, rd, b, os), off);
      AddedNotActive(s, rd, b, os, off);
    }
  }

  lemma {:induction false} AddedNotActive(s: string, rd: Reader, b: nat, os: seq<Override>, off: nat)
    requires b < |s| && (off < NextLine(s, b) || rd(b).None?)
    ensures Active(WithLine(s, rd, b, os), off) == Active(os, off)
  {
    var d := rd(b);
    if d.Some? {
      var os' := os + [Override(NextLine(s, b), d.value.line, d.value.path)];
      assert os'[..|os'| - 1] == os;
    }
  }

  /** The last override is not above `b`. */
  predicate Settled(os: seq<Override>, b: nat) {
    os == [] || os[|os| - 1].origin <= b
  }

  /** On the line at `b` the override in force is the one in force at `b`. */
  lemma {:induction false} ActiveOnLine(s: string, rd: Reader, b: nat, os: seq<Override>, off: nat)
    requires b <= off <= |s| && off <= LineEnd(s, b) && Settled(os, b)
    requires off < |s| || b == |s| || rd(b).None?
    ensures Active(Replayed(s, rd, b, os), off) == Active(os, b)
  {
    if b < |s| {
      LaterNotActive(s, rd, NextLine(s, b), WithLine(s, rd, b, os), off);
      AddedNotActive(s, rd, b, os, off);
    }
  }

  lemma {:induction false} ScanStops(s: string, rd: Reader, own: string, b: nat, os: seq<Override>, off: nat)
    requires b <= off <= |s| && off <= LineEnd(s, b) && Settled(os, b) && LineBegin(s, b) == b
    requires off < |s| || b == |s| || rd(b).None?
    ensures
      var here := Resolve(s, own, os, b);
      Resolve(s, own, Replayed(s, rd, b, os), off) == Place(here.path, here.line, off - b + 1)
  {
    ActiveOnLine(s, rd, b, os, off);
    SameLine(s, b, off);
  }

  /** The numbering of the line after `here`, given the directive on `here`. */
  predicate Follows(d: Option<Directive>, own: string, here: Place, next: Place) {
    match d
    case None => next.line == Low32(here.line + 1) && next.path == here.path
    case Some(d) => next.line == d.line && next.path == if d.path == "" then own else d.path
  }

  /** From one line to the next. */
  lemma {:induction false} ScanSteps(s: string, rd: Reader, own: string, b: nat, os: seq<Override>, n: nat)
    requires |s| < MAX_OFFSET && b < n <= |s| && n == LineEnd(s, b) + 1 && Settled(os, b)
    ensures LineBegin(s, n) == n && Settled(WithLine(s, rd, b, os), n)
    ensures Follows(rd(b), own, Resolve(s, own, os, b), Resolve(s, own, WithLine(s, rd, b, os), n))
  {
    OneNewlineMore(s, b, n - 1);
    NewlinesBounded(s, n);
    if rd(b).None? && os != [] {
      var o := os[|os| - 1];
      Low32Adds(o.line + (Newlines(s, b) - Newlines(s, o.origin)), 1);
    }
  }

  lemma {:induction false} ScanWalks(s: string, rd: Reader, own: string, b: nat, here: Place, next: Place, off: nat)
    requires b <= off <= |s| && LineEnd(s, b) < off && Follows(rd(b), own, here, next)
    ensures Scan(s, rd, own, b, here.line, here.path, off) ==
      Scan(s, rd, own, LineEnd(s, b) + 1, next.line, next.path, off)
  {
  }

  lemma {:induction false} ReplaySteps(s: string, rd: Reader, b: nat, os: seq<Override>, n: nat)
    requires b < n <= |s| && n == LineEnd(s, b) + 1
    ensures Replayed(s, rd, b, os) == Replayed(s, rd, n, WithLine(s, rd, b, os))
  {
  }

  lemma {:induction false} ScanAgrees(s: string, rd: Reader, own: string, b: nat, os: seq<Override>, off: nat)
    requires |s| < MAX_OFFSET && b <= off <= |s| && Settled(os, b) && LineBegin(s, b) == b
    requires !AfterOpenDirective(s, rd, off)
    ensures
      var here := Resolve(s, own, os, b);
      Resolve(s, own, Replayed(s, rd, b, os), off) == Scan(s, rd, own, b, here.line, here.path, off)
    decreases |s| - b
  {
    var here, n := Resolve(s, own, os, b), LineEnd(s, b) + 1;
    if off < n {
      SameLine(s, b, off);
      ScanStops(s, rd, own, b, os, off);
    } else {
      var os' := WithLine(s, rd, b, os);
      ScanSteps(s, rd, own, b, os, n);
      ScanAgrees(s, rd, own, n, os', off);
      ScanWalks(s, rd, own, b, here, Resolve(s, own, os', n), off);
      ReplaySteps(s, rd, b, os, n);
    }
  }

  /** Main result: after replay, every offset resolves as the plain scan says, but for the end of a buffer that ends in an open `#line`. */
  lemma {:induction false} ReplayAgrees(s: string, rd: Reader, own: string, off: nat)
    requires |s| < MAX_OFFSET && off <= |s| && !AfterOpenDirective(s, rd, off)
    ensures Resolve(s, own, Replayed(s, rd, 0, []), off) == Scan(s, rd, own, 0, 1, own, off)
  {
    ScanAgrees(s, rd, own, 0, [], off);
  }

  lemma {:induction false} OpenDirectiveEnds(s: string, rd: Reader, b: nat, os: seq<Override>)
    requires b <= LineBegin(s, |s|) && LineBegin(s, b) == b && AfterOpenDirective(s, rd, |s|)
    ensures
      var d := rd(LineBegin(s, |s|)).value;
      Active(Replayed(s, rd, b, os), |s|) == Some(Override(|s|, d.line, d.path))
    decreases |s| - b
  {
    var last, n := LineBegin(s, |s|), LineEnd(s, b) + 1;
    if b < last {
      assert s[last - 1] == '\n';
      OneNewlineMore(s, b, n - 1);
      ReplaySteps(s, rd, b, os, n);
      OpenDirectiveEnds(s, rd, n, WithLine(s, rd, b, os));
    } else {
      LastLineReplayed(s, rd, b, os);
    }
  }

  lemma {:induction false} LastLineReplayed(s: string, rd: Reader, b: nat, os: seq<Override>)
    requires b < |s| && LineEnd(s, b) == |s| && rd(b).Some?
    ensures Active(Replayed(s, rd, b, os), |s|) == Some(Override(|s|, rd(b).value.line, rd(b).value.path))
  {
    assert Replayed(s, rd, |s|, WithLine(s, rd, b, os)) == WithLine(s, rd, b, os);
  }

  /** There, at the end of an open `#line`, the code already counts by it. */
  lemma {:induction false} OpenDirectiveResolves(s: string, rd: Reader, own: string)
    requires |s| < MAX_OFFSET && AfterOpenDirective(s, rd, |s|)
    ensures
      var d := rd(LineBegin(s, |s|)).value;
      Resolve(s, own, Replayed(s, rd, 0, []), |s|) ==
        Place(if d.path == "" then own else d.path, d.line, |s| - LineBegin(s, |s|) + 1)
  {
    OpenDirectiveEnds(s, rd, 0, []);
  }

  lemma {:induction false} ScanOnLine(s: string, rd: Reader, own: string, b: nat, line: nat, path: string, off: nat)
    requires off <= |s| && b <= LineBegin(s, off) && LineBegin(s, b) == b
    ensures
      var begin := LineBegin(s, off);
      var here := Scan(s, rd, own, b, line, path, begin);
      Scan(s, rd, own, b, line, path, off) == Place(here.path, here.line, off - begin + 1)
    decreases |s| - b
  {
    var e := LineEnd(s, b);
    if off <= e {
      SameLine(s, b, off);
    } else {
      OneNewlineMore(s, b, e);
      match rd(b)
      case None => ScanOnLine(s, rd, own, e + 1, Low32(line + 1), path, off);
      case Some(d) => ScanOnLine(s, rd, own, e + 1, d.line, if d.path == "" then own else d.path, off);
    }
  }

  /** There the plain scan still counts as on the whole of that last line. */
  lemma {:induction false} ScanAtOpenEnd(s: string, rd: Reader, own: string)
    requires |s| < MAX_OFFSET && AfterOpenDirective(s, rd, |s|)
    ensures
      var b := LineBegin(s, |s|);
      var here := Resolve(s, own, Replayed(s, rd, 0, []), b);
      Scan(s, rd, own, 0, 1, own, |s|) == Place(here.path, here.line, |s| - b + 1)
  {
    var b := LineBegin(s, |s|);
    ScanOnLine(s, rd, own, 0, 1, own, |s|);
    ReplayAgrees(s, rd, own, b);
  }

  /** The open directive gives the number and path that are in force on its own line. */
  predicate ChangesNothing(s: string, rd: Reader, own: string)
    requires AfterOpenDirective(s, rd, |s|)
  {
    var b := LineBegin(s, |s|);
    var here := Resolve(s, own, Replayed(s, rd, 0, []), b);
    here.line == rd(b).value.line && here.path == if rd(b).value.path == "" then own else rd(b).value.path
  }

  /**
   Main result: after replay an offset resolves as the plain scan says, if and
   only if it is not the end of a buffer that ends in an open `#line`, or that
   directive changes nothing.
   */
  lemma {:induction false} ReplayAgreesIff(s: string, rd: Reader, own: string, off: nat)
    requires |s| < MAX_OFFSET && off <= |s|
    ensures Resolve(s, own, Replayed(s, rd, 0, []), off) == Scan(s, rd, own, 0, 1, own, off) <==>
      (AfterOpenDirective(s, rd, off) ==> ChangesNothing(s, rd, own))
  {
    if AfterOpenDirective(s, rd, off) {
      OpenDirectiveResolves(s, rd, own);
      ScanAtOpenEnd(s, rd, own);
    } else {
      ReplayAgrees(s, rd, own, off);
    }
  }

  /** A buffer of one open line that numbers it differently is one where they differ at the end. */
  lemma {:induction false} OpenLineDiffers(s: string, rd: Reader, own: string)
    requires 0 < |s| < MAX_OFFSET && '\n' !in s && rd(0).Some? && rd(0).value.line != 1
    ensures Resolve(s, own, Replayed(s, rd, 0, []), |s|) != Scan(s, rd, own, 0, 1, own, |s|)
  {
    SameLine(s, 0, |s|);
    OpenDirectiveResolves(s, rd, own);
  }

  /** So is every canonical directive without a newline, with a number other than 1. */
  lemma {:induction false} OpenTextDiffers(digits: string, path: string, own: string)
    requires digits != "" && AllDec(digits) && '"' !in path && '\n' !in path && |digits| + |path| + 9 < MAX_OFFSET
    requires AllReadable(digits, 10) && Low32(Positional(digits, 10)) != 1
    ensures
      var s := DirectiveText(digits, path);
      Resolve(s, own, Replayed(s, DirectivesOf(s), 0, []), |s|) != Scan(s, DirectivesOf(s), own, 0, 1, own, |s|)
  {
    var s := DirectiveText(digits, path);
    DirectiveReadsBack(digits, path);
    DirectiveIsOneLine(digits, path);
    WholeLine(s);
    OpenLineDiffers(s, DirectivesOf(s), own);
  }

  lemma {:induction false} DirectiveIsOneLine(digits: string, path: string)
    requires AllDec(digits) && '\n' !in path
    ensures '\n' !in DirectiveText(digits, path) && |DirectiveText(digits, path)| == |digits| + |path| + 9
  {
    assert '\n' !in PREFIX && '\n' !in digits && '\n' !in " \"" && '\n' !in "\"";
  }

  lemma {:induction false} WholeLine(s: string)
    requires '\n' !in s
    ensures DirectivesOf(s)(0) == ReadDirective(s)
  {
    assert LineEnd(s, 0) == |s| && s[0..|s|] == s;
  }

  /** At the end of `#line 5 "f"` the code is on line 5 of `f`, the plain scan on line 1. */
  lemma {:induction false} OpenDirectiveDiffers(own: string)
    ensures
      var s := DirectiveText("5", "f");
      Resolve(s, own, Replayed(s, DirectivesOf(s), 0, []), |s|) != Scan(s, DirectivesOf(s), own, 0, 1, own, |s|)
  {
    FiveIsFive();
    OpenTextDiffers("5", "f", own);
  }

  lemma {:induction false} FiveIsFive()
    ensures AllReadable("5", 10) && Positional("5", 10) == 5
  {
    PositionalAppends("", '5', 10);
    assert "" + ['5'] == "5";
  }

  // ----- The buffer object -----

  class Buffer {
    const path: string
    const bytes: string
    var lineOffsets: seq<nat>
    var built: bool
    var overrides: seq<Override>

    ghost predicate Valid()
      reads this
    {
      && (built ==> lineOffsets == LineStarts(bytes, |bytes|))
      && Ascending(overrides, |bytes|)
    }

    constructor (path: string, bytes: string)
      ensures Valid() && this.path == path && this.bytes == bytes && overrides == []
    {
      this.path := path;
      this.bytes := bytes;
      lineOffsets, built, overrides := [], false, [];
    }

    method BuildLineOffsetsIfNeeded()
      requires Valid()
      modifies this`lineOffsets, this`built
      ensures Valid() && built
    {
      if built {
        return;
      }
      lineOffsets := [0];
      var i := 0;
      while i < |bytes|
        invariant 0 <= i <= |bytes| && !built
        invariant lineOffsets == LineStarts(bytes, i)
      {
        if bytes[i] == '\n' {
          lineOffsets := lineOffsets + [i + 1];
        }
        i := i + 1;
      }
      built := true;
    }

    method GetLineCol(off: nat) returns (line: nat, col: nat)
      requires Valid() && off <= |bytes|
      modifies this`lineOffsets, this`built
      ensures Valid() && line == Newlines(bytes, off) + 1 && col == off - LineBegin(bytes, off) + 1
    {
      BuildLineOffsetsIfNeeded();
      TableFindsLine(bytes, |bytes|, off);
      line := UpperBound(lineOffsets, off);
      col := off - lineOffsets[line - 1] + 1;
    }

    /** The text of the line that holds `off`, without its newline. */
    method GetLine(off: nat) returns (text: string)
      requires Valid() && off <= |bytes|
      modifies this`lineOffsets, this`built
      ensures Valid()
      ensures
        var b := LineBegin(bytes, off);
        text == bytes[b..LineEnd(bytes, b)]
    {
      BuildLineOffsetsIfNeeded();
      LineSpan(bytes, off);
      var k := UpperBound(lineOffsets, off);
      var end := if k < |lineOffsets| then lineOffsets[k] - 1 else |bytes|;
      text := bytes[lineOffsets[k - 1]..end];
    }

    method AddLineDirective(at: nat, line: Word, path: string)
      requires Valid() && at <= |bytes|
      requires overrides != [] ==> at > overrides[|overrides| - 1].origin
      modifies this`overrides
      ensures Valid() && overrides == old(overrides) + [Override(at, line, path)]
    {
      overrides := overrides + [Override(at, line, path)];
    }

    method FindActive(off: nat) returns (active: Option<Override>)
      requires Valid()
      ensures active == Active(overrides, off)
    {
      active := None;
      var k := 0;
      while k < |overrides|
        invariant 0 <= k <= |overrides|
        invariant active == (if k == 0 then None else Some(overrides[k - 1]))
        invariant forall i :: 0 <= i < k ==> overrides[i].origin <= off
      {
        if overrides[k].origin > off {
          break;
        }
        active := Some(overrides[k]);
        k := k + 1;
      }
      FirstAbove(overrides, k, off);
    }

    method ResolveVirtual(off: nat) returns (r: Place)
      requires Valid() && off <= |bytes|
      modifies this`lineOffsets, this`built
      ensures Valid() && r == Resolve(bytes, path, overrides, off)
    {
      var active := FindActive(off);
      var line, col := GetLineCol(off);
      if active.None? {
        return Place(path, line, col);
      }
      ActiveIsOneOf(overrides, off);
      var origin, _ := GetLineCol(active.value.origin);
      NewlinesMonotone(bytes, active.value.origin, off);
      return Place(PathOf(active, path), Low32(active.value.line + (line - origin)), col);
    }
  }

  lemma {:induction false} ActiveIsOneOf(os: seq<Override>, off: nat)
    requires Active(os, off).Some?
    ensures Active(os, off).value in os && Active(os, off).value.origin <= off
  {
    if os[|os| - 1].origin > off {
      ActiveIsOneOf(os[..|os| - 1], off);
    }
  }

  /** The override before the first one above `off` is the active one. */
  lemma {:induction false} FirstAbove(os: seq<Override>, k: nat, off: nat)
    requires k <= |os| && Ascending(os, if os == [] then 0 else os[|os| - 1].origin)
    requires forall i :: 0 <= i < k ==> os[i].origin <= off
    requires k < |os| ==> os[k].origin > off
    ensures Active(os, off) == if k == 0 then None else Some(os[k - 1])
    decreases |os|
  {
    if k < |os| {
      assert os[|os| - 1].origin >= os[k].origin;
      FirstAbove(os[..|os| - 1], k, off);
    }
  }

  lemma {:induction false} UpperBoundSkips(t: seq<nat>, n: nat, off: nat)
    requires off < n
    ensures UpperBound(t + [n], off) == UpperBound(t, off)
  {
    assert (t + [n])[..|t|] == t;
  }

  /** The table's next entry is just past the line's newline. */
  lemma {:induction false} LineEnds(s: string, n: nat, off: nat)
    requires off <= n <= |s|
    ensures
      var t, e := LineStarts(s, n), LineEnd(s, off);
      var k := UpperBound(t, off);
      if k < |t| then t[k] == e + 1 else e >= n
    decreases n
  {
    if off < n {
      var t := LineStarts(s, n - 1);
      LineEnds(s, n - 1, off);
      if s[n - 1] == '\n' {
        UpperBoundSkips(t, n, off);
        assert LineStarts(s, n) == t + [n];
      } else {
        assert LineStarts(s, n) == t;
      }
    } else {
      TableFindsLine(s, n, off);
    }
  }

  /** The table gives the line's begin and end. */
  lemma {:induction false} LineSpan(s: string, off: nat)
    requires off <= |s|
    ensures
      var t := LineStarts(s, |s|);
      var k := UpperBound(t, off);
      && 0 < k <= |t| && t[k - 1] == LineBegin(s, off)
      && (if k < |t| then t[k] - 1 else |s|) == LineEnd(s, LineBegin(s, off))
  {
    TableFindsLine(s, |s|, off);
    LineEnds(s, |s|, off);
    SameEnd(s, LineBegin(s, off), off);
  }

  lemma {:induction false} SameEnd(s: string, b: nat, off: nat)
    requires b <= off <= |s| && forall i :: b <= i < off ==> s[i] != '\n'
    ensures LineEnd(s, b) == LineEnd(s, off)
  {
  }

  /** Replays the `#line` directives of a fresh buffer onto it. */
  method ReplayLineDirectives(b: Buffer)
    requires b.Valid() && b.overrides == []
    modifies b`overrides
    ensures b.Valid() && b.overrides == Replayed(b.bytes, DirectivesOf(b.bytes), 0, [])
  {
    ghost var rd := DirectivesOf(b.bytes);
    var off := 0;
    while off < |b.bytes|
      invariant off <= |b.bytes| && b.Valid() && Ascending(b.overrides, off)
      invariant Replayed(b.bytes, rd, off, b.overrides) == Replayed(b.bytes, rd, 0, [])
    {
      ghost var next := WithLine(b.bytes, rd, off, b.overrides);
      WithLineAscends(b.bytes, rd, off, b.overrides);
      off := ReplayLine(b, off);
      assert b.overrides == next;
    }
  }

  /** Replays one line and moves past it. */
  method ReplayLine(b: Buffer, begin: nat) returns (off: nat)
    requires b.Valid() && begin < |b.bytes| && Ascending(b.overrides, begin)
    modifies b`overrides
    ensures b.Valid() && off == NextLine(b.bytes, begin)
    ensures b.overrides == WithLine(b.bytes, DirectivesOf(b.bytes), begin, old(b.overrides))
  {
    var s := b.bytes;
    off := begin;
    while off < |s| && s[off] != '\n'
      invariant begin <= off <= |s| && LineEnd(s, off) == LineEnd(s, begin)
    {
      off := off + 1;
    }
    var line := s[begin..off];
    if off < |s| {
      off := off + 1;
    }
    var d := ParseDirective(line);
    assert d == DirectivesOf(s)(begin);
    if d.Some? {
      b.AddLineDirective(off, d.value.line, d.value.path);
    }
  }
}
