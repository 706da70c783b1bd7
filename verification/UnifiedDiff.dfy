/**
 The text of a unified diff (lib/Fmt/Diff.cpp): splitting files into lines,
 spelling hunks, and a reader for the spelled text that is independent of the
 code that wrote it.
 */
module UnifiedDiff {
  import opened Wrappers
  import opened EditScript
  import opened Hunks
  import opened LineDiff

  // ----- Lines -----

  function FirstNewline(text: string): (i: nat)
    ensures i <= |text|
    ensures forall k :: 0 <= k < i ==> text[k] != '\n'
    ensures i < |text| ==> text[i] == '\n'
  {
    if text == "" || text[0] == '\n' then 0 else 1 + FirstNewline(text[1..])
  }

  function Lines(text: string): seq<Line> {
    if text == "" then []
    else
      var i := FirstNewline(text);
      if i == |text| then [text] else [text[..i]] + Lines(text[i + 1..])
  }

  predicate NewlineFree(line: string) {
    '\n' !in line
  }

  /** Every line spelled with its terminator. */
  function Unlines(lines: seq<Line>): string {
    if lines == [] then "" else lines[0] + "\n" + Unlines(lines[1..])
  }

  /** The text with a terminator on its last line. */
  function Terminated(text: string): string {
    if text == "" || Last(text) == '\n' then text else text + "\n"
  }

  lemma FirstNewlineAt(line: string, rest: string)
    requires NewlineFree(line)
    ensures FirstNewline(line + ("\n" + rest)) == |line|
  {
    var text := line + ("\n" + rest);
    assert text[|line|] == '\n';
    assert forall k :: 0 <= k < |line| ==> text[k] == line[k];
  }

  /** The first line of a text that has a terminator. */
  lemma LinesOfLine(line: string, rest: string)
    requires NewlineFree(line)
    ensures Lines(line + ("\n" + rest)) == [line] + Lines(rest)
  {
    var text := line + ("\n" + rest);
    FirstNewlineAt(line, rest);
    assert text[..|line|] == line;
    assert text[|line| + 1..] == rest;
  }

  /** A text is empty, one unterminated line, or a line and the rest. */
  lemma LineCases(text: string) returns (line: string, rest: string)
    requires text != ""
    ensures NewlineFree(line)
    ensures (text == line && rest == "" && Lines(text) == [line]) || text == line + ("\n" + rest)
    ensures |rest| < |text|
  {
    var i := FirstNewline(text);
    if i == |text| {
      line, rest := text, "";
    } else {
      line, rest := text[..i], text[i + 1..];
      assert text == line + ("\n" + rest);
    }
  }

  lemma UnlinesOfCons(line: Line, lines: seq<Line>)
    ensures Unlines([line] + lines) == line + ("\n" + Unlines(lines))
  {
    assert ([line] + lines)[1..] == lines;
    assert line + "\n" + Unlines(lines) == line + ("\n" + Unlines(lines));
  }

  lemma TerminatedStep(line: string, rest: string)
    ensures Terminated(line + ("\n" + rest)) == line + ("\n" + Terminated(rest))
  {
    var text := line + ("\n" + rest);
    if rest == "" {
      assert Last(text) == '\n';
    } else {
      assert Last(text) == Last(rest);
      assert text + "\n" == line + ("\n" + (rest + "\n"));
    }
  }

  /** Splitting loses nothing but the final terminator. */
  lemma {:induction false} UnlinesOfLines(text: string)
    ensures Unlines(Lines(text)) == Terminated(text)
    ensures forall l :: l in Lines(text) ==> NewlineFree(l)
    decreases |text|
  {
    if text != "" {
      var line, rest := LineCases(text);
      if text == line {
        UnlinesOfCons(line, []);
        assert [line] + [] == [line];
      } else {
        UnlinesOfLines(rest);
        LinesOfLine(line, rest);
        UnlinesOfCons(line, Lines(rest));
        TerminatedStep(line, rest);
      }
    }
  }

  lemma {:induction false} LinesOfUnlines(lines: seq<Line>)
    requires forall l :: l in lines ==> NewlineFree(l)
    ensures Lines(Unlines(lines)) == lines
  {
    if lines != [] {
      LinesOfUnlines(lines[1..]);
      assert lines == [lines[0]] + lines[1..];
      UnlinesOfCons(lines[0], lines[1..]);
      LinesOfLine(lines[0], Unlines(lines[1..]));
    }
  }

  /** Main result: two texts have the same lines exactly when they differ at most in a final terminator. */
  lemma SameLinesIff(s: string, t: string)
    ensures Lines(s) == Lines(t) <==> Terminated(s) == Terminated(t)
  {
    UnlinesOfLines(s);
    UnlinesOfLines(t);
    LinesOfUnlines(Lines(s));
    LinesOfUnlines(Lines(t));
  }

  /** Terminated lines and then a last line without a terminator. */
  lemma {:induction false} LinesWithTail(lines: seq<Line>, tail: string)
    requires forall l :: l in lines ==> NewlineFree(l)
    requires NewlineFree(tail)
    ensures Lines(Unlines(lines) + tail) == lines + (if tail == "" then [] else [tail])
  {
    if lines == [] {
      assert FirstNewline(tail) == |tail|;
      assert Unlines(lines) + tail == tail;
    } else {
      LinesWithTail(lines[1..], tail);
      assert lines == [lines[0]] + lines[1..];
      UnlinesOfCons(lines[0], lines[1..]);
      assert Unlines(lines) + tail == lines[0] + ("\n" + (Unlines(lines[1..]) + tail));
      LinesOfLine(lines[0], Unlines(lines[1..]) + tail);
    }
  }

  /** The splitting loop met a terminator at `i`. */
  lemma SplitStep(text: string, lines: seq<Line>, start: nat, i: nat)
    requires start <= i < |text| && text[i] == '\n' && Unlines(lines) == text[..start]
    ensures Unlines(lines + [text[start..i]]) == text[..i + 1]
  {
    UnlinesOfConcat(lines, [text[start..i]]);
    assert [text[start..i]] + [] == [text[start..i]];
    UnlinesOfCons(text[start..i], []);
    assert text[..i + 1] == text[..start] + (text[start..i] + ("\n" + ""));
  }

  lemma Regroup(a: string, b: string, c: string, d: string, e: string, f: string, g: string, h: string, i: string)
    ensures a + b + c + d + e + f + g + h + i == a + (b + (c + (d + (e + (f + (g + (h + i)))))))
  {
    assert g + h + i == g + (h + i);
    assert d + e + f + g + h + i == d + (e + (f + (g + h + i)));
    assert a + b + c + d + e + f + g + h + i == a + (b + (c + (d + e + f + g + h + i)));
  }

  predicate CleanRange(text: string, lo: nat, hi: nat) {
    forall k :: lo <= k < hi && k < |text| ==> text[k] != '\n'
  }

  method SplitLines(text: string) returns (lines: seq<Line>)
    ensures lines == Lines(text)
  {
    lines := [];
    if text == "" {
      return;
    }
    var start := 0;
    var i := 0;
    while i < |text|
      invariant 0 <= start <= i <= |text|
      invariant CleanRange(text, start, i)
      invariant Unlines(lines) == text[..start]
      invariant forall l :: l in lines ==> NewlineFree(l)
    {
      if text[i] == '\n' {
        SplitStep(text, lines, start, i);
        lines := lines + [text[start..i]];
        start := i + 1;
      }
      i := i + 1;
    }
    assert text == text[..start] + text[start..];
    LinesWithTail(lines, text[start..]);
    if start < |text| {
      lines := lines + [text[start..]];
    }
  }

  // ----- Numbers -----

  function Digit(d: nat): char
    requires d < 10
  {
    '0' + d as char
  }

  function DigitValue(c: char): nat
    requires '0' <= c <= '9'
  {
    (c - '0') as nat
  }

  function Decimal(n: nat): string {
    if n < 10 then [Digit(n)] else Decimal(n / 10) + [Digit(n % 10)]
  }

  /** Reads the longest run of digits; none is an error. */
  function ReadNat(s: string, soFar: nat, seen: bool): Option<(nat, string)> {
    if s != "" && '0' <= s[0] <= '9' then ReadNat(s[1..], soFar * 10 + DigitValue(s[0]), true)
    else if seen then Some((soFar, s))
    else None
  }

  function Pow10(n: nat): nat {
    if n < 10 then 10 else 10 * Pow10(n / 10)
  }

  lemma Shift10(soFar: nat, p: nat, n: nat)
    ensures (soFar * p + n / 10) * 10 + n % 10 == soFar * (10 * p) + n
  {
    assert soFar * (10 * p) == (soFar * p) * 10;
  }

  lemma {:induction false} ReadDecimal(n: nat, soFar: nat, seen: bool, rest: string)
    ensures ReadNat(Decimal(n) + rest, soFar, seen) == ReadNat(rest, soFar * Pow10(n) + n, true)
    decreases n
  {
    if n < 10 {
      assert (Decimal(n) + rest)[1..] == rest;
    } else {
      var d := [Digit(n % 10)];
      assert Decimal(n) + rest == Decimal(n / 10) + (d + rest);
      ReadDecimal(n / 10, soFar, seen, d + rest);
      assert (d + rest)[1..] == rest;
      Shift10(soFar, Pow10(n / 10), n);
    }
  }

  /** Reading back a spelled number. */
  lemma ReadBackNat(n: nat, rest: string)
    requires rest == "" || !('0' <= rest[0] <= '9')
    ensures ReadNat(Decimal(n) + rest, 0, false) == Some((n, rest))
  {
    ReadDecimal(n, 0, false, rest);
  }

  // ----- Spelling a hunk -----

  function HeaderLine(w: WireHunk): string {
    "@@ -" + (Decimal(w.oldAt) + ("," + (Decimal(w.oldCount)
    + (" +" + (Decimal(w.newAt) + ("," + (Decimal(w.newCount) + " @@")))))))
  }

  function Mark(k: EditKind): char {
    match k
    case Context => ' '
    case Removed => '-'
    case Added => '+'
  }

  function BodyLines(es: seq<Edit>): seq<Line> {
    if es == [] then [] else [[Mark(es[0].kind)] + es[0].text] + BodyLines(es[1..])
  }

  function OneHunk(w: WireHunk): seq<Line> {
    [HeaderLine(w)] + BodyLines(w.edits)
  }

  function HunkLines(ws: seq<WireHunk>): seq<Line> {
    if ws == [] then [] else [HeaderLine(ws[0])] + (BodyLines(ws[0].edits) + HunkLines(ws[1..]))
  }

  lemma {:induction false} UnlinesOfConcat(ls: seq<Line>, ms: seq<Line>)
    ensures Unlines(ls + ms) == Unlines(ls) + Unlines(ms)
  {
    if ls == [] {
      assert ls + ms == ms;
    } else {
      UnlinesOfConcat(ls[1..], ms);
      assert (ls + ms)[1..] == ls[1..] + ms;
      Assoc(ls[0] + "\n", Unlines(ls[1..]), Unlines(ms));
    }
  }

  lemma {:induction false} BodyLinesSnoc(es: seq<Edit>, e: Edit)
    ensures BodyLines(es + [e]) == BodyLines(es) + [[Mark(e.kind)] + e.text]
  {
    if es == [] {
      assert (es + [e])[1..] == [];
    } else {
      BodyLinesSnoc(es[1..], e);
      assert (es + [e])[1..] == es[1..] + [e];
    }
  }

  lemma BodyStep(es: seq<Edit>, i: nat)
    requires i < |es|
    ensures Unlines(BodyLines(es[..i + 1])) == Unlines(BodyLines(es[..i])) + ([Mark(es[i].kind)] + es[i].text + "\n")
  {
    var line := [Mark(es[i].kind)] + es[i].text;
    assert es[..i + 1] == es[..i] + [es[i]];
    BodyLinesSnoc(es[..i], es[i]);
    UnlinesOfConcat(BodyLines(es[..i]), [line]);
    assert [line] + [] == [line];
    UnlinesOfCons(line, []);
  }

  method EmitHeader(h: Hunk) returns (text: string)
    requires h.oldStart > 0 && h.newStart > 0
    ensures text == HeaderLine(ToWire(h)) + "\n"
  {
    var oldStartReported := if h.oldCount == 0 then h.oldStart - 1 else h.oldStart;
    var newStartReported := if h.newCount == 0 then h.newStart - 1 else h.newStart;
    text := "@@ -" + Decimal(oldStartReported) + "," + Decimal(h.oldCount) + " +"
      + Decimal(newStartReported) + "," + Decimal(h.newCount) + " @@";
    Regroup("@@ -", Decimal(oldStartReported), ",", Decimal(h.oldCount), " +",
            Decimal(newStartReported), ",", Decimal(h.newCount), " @@");
    text := text + "\n";
  }

  method EmitHunk(out: string, h: Hunk) returns (out': string)
    requires h.oldStart > 0 && h.newStart > 0
    ensures out' == out + Unlines(OneHunk(ToWire(h)))
  {
    var header := EmitHeader(h);
    var body := "";
    var i := 0;
    while i < |h.edits|
      invariant 0 <= i <= |h.edits|
      invariant body == Unlines(BodyLines(h.edits[..i]))
    {
      BodyStep(h.edits, i);
      var e := h.edits[i];
      var prefix := match e.kind { case Context => ' ' case Removed => '-' case Added => '+' };
      body := body + ([prefix] + e.text + "\n");
      i := i + 1;
    }
    assert h.edits[..|h.edits|] == h.edits;
    UnlinesOfCons(HeaderLine(ToWire(h)), BodyLines(h.edits));
    out' := out + (header + body);
  }

  // ----- Reading a patch -----

  predicate StartsWith(s: string, prefix: string) {
    |prefix| <= |s| && s[..|prefix|] == prefix
  }

  function Expect(s: string, prefix: string): Option<string> {
    if StartsWith(s, prefix) then Some(s[|prefix|..]) else None
  }

  /** Reads `lead`, then a number. */
  function ReadField(s: string, lead: string): Option<(nat, string)> {
    var r := Expect(s, lead);
    if r.None? then None else ReadNat(r.value, 0, false)
  }

  function ReadHeader(s: string): Option<(nat, nat, nat, nat)> {
    var a := ReadField(s, "@@ -");
    if a.None? then None else
    var b := ReadField(a.value.1, ",");
    if b.None? then None else
    var c := ReadField(b.value.1, " +");
    if c.None? then None else
    var d := ReadField(c.value.1, ",");
    if d.None? || d.value.1 != " @@" then None else
    Some((a.value.0, b.value.0, c.value.0, d.value.0))
  }

  function ReadEdit(line: string): Option<Edit> {
    if line == "" then None
    else if line[0] == ' ' then Some(Edit(Context, line[1..]))
    else if line[0] == '-' then Some(Edit(Removed, line[1..]))
    else if line[0] == '+' then Some(Edit(Added, line[1..]))
    else None
  }

  /** Reads body lines until the header's counts are used up. */
  function ReadBody(lines: seq<Line>, oldLeft: int, newLeft: int): Option<(seq<Edit>, seq<Line>)>
    decreases |lines|
  {
    if oldLeft == 0 && newLeft == 0 then Some(([], lines))
    else if lines == [] || oldLeft < 0 || newLeft < 0 then None
    else
      var e := ReadEdit(lines[0]);
      if e.None? then None else
      var o := if e.value.kind.Added? then 0 else 1;
      var n := if e.value.kind.Removed? then 0 else 1;
      var rest := ReadBody(lines[1..], oldLeft - o, newLeft - n);
      if rest.None? then None else Some(([e.value] + rest.value.0, rest.value.1))
  }

  function ReadHunks(lines: seq<Line>): Option<seq<WireHunk>>
    decreases |lines|
  {
    if lines == [] then Some([])
    else
      var h := ReadHeader(lines[0]);
      if h.None? then None else
      var b := ReadBody(lines[1..], h.value.1, h.value.3);
      if b.None? || |b.value.1| >= |lines| then None else
      var rest := ReadHunks(b.value.1);
      if rest.None? then None else
      Some([WireHunk(h.value.0, h.value.1, h.value.2, h.value.3, b.value.0)] + rest.value)
  }

  function ReadPatch(body: string): Option<seq<WireHunk>> {
    ReadHunks(Lines(body))
  }

  lemma ReadBackField(lead: string, n: nat, rest: string)
    requires rest == "" || !('0' <= rest[0] <= '9')
    ensures ReadField(lead + (Decimal(n) + rest), lead) == Some((n, rest))
  {
    var s := lead + (Decimal(n) + rest);
    assert s[..|lead|] == lead;
    assert s[|lead|..] == Decimal(n) + rest;
    ReadBackNat(n, rest);
  }

  lemma ReadBackHeader(w: WireHunk)
    ensures ReadHeader(HeaderLine(w)) == Some((w.oldAt, w.oldCount, w.newAt, w.newCount))
  {
    var r4 := " @@";
    var r3 := "," + (Decimal(w.newCount) + r4);
    var r2 := " +" + (Decimal(w.newAt) + r3);
    var r1 := "," + (Decimal(w.oldCount) + r2);
    ReadBackField("@@ -", w.oldAt, r1);
    ReadBackField(",", w.oldCount, r2);
    ReadBackField(" +", w.newAt, r3);
    ReadBackField(",", w.newCount, r4);
  }

  lemma SidesOfCons(e: Edit, es: seq<Edit>)
    ensures |OldSide([e] + es)| == |OldSide(es)| + (if e.kind.Added? then 0 else 1)
    ensures |NewSide([e] + es)| == |NewSide(es)| + (if e.kind.Removed? then 0 else 1)
  {
    SidesOfConcat([e], es);
    assert DropLast([e]) == [];
  }

  lemma {:induction false} NoSidesNoEdits(es: seq<Edit>)
    ensures |OldSide(es)| == 0 && |NewSide(es)| == 0 ==> es == []
  {
  }

  lemma ReadBodyLine(e: Edit, lines: seq<Line>, oldLeft: nat, newLeft: nat)
    requires oldLeft + newLeft > 0
    ensures
      var o := if e.kind.Added? then 0 else 1;
      var n := if e.kind.Removed? then 0 else 1;
      var rest := ReadBody(lines, oldLeft - o, newLeft - n);
      ReadBody([[Mark(e.kind)] + e.text] + lines, oldLeft, newLeft) ==
        if rest.None? then None else Some(([e] + rest.value.0, rest.value.1))
  {
    var line := [Mark(e.kind)] + e.text;
    assert line[1..] == e.text;
    assert ([line] + lines)[1..] == lines;
  }

  lemma {:induction false} ReadBackBody(es: seq<Edit>, rest: seq<Line>)
    ensures ReadBody(BodyLines(es) + rest, |OldSide(es)|, |NewSide(es)|) == Some((es, rest))
  {
    if es == [] {
      assert BodyLines(es) + rest == rest;
    } else {
      ReadBackBody(es[1..], rest);
      ReadBackLine(es[0], es[1..], BodyLines(es[1..]), rest);
      assert es == [es[0]] + es[1..];
    }
  }

  lemma {:induction false} ReadBackLine(e: Edit, es: seq<Edit>, lines: seq<Line>, rest: seq<Line>)
    requires lines == BodyLines(es) && ReadBody(lines + rest, |OldSide(es)|, |NewSide(es)|) == Some((es, rest))
    ensures ReadBody(BodyLines([e] + es) + rest, |OldSide([e] + es)|, |NewSide([e] + es)|) == Some(([e] + es, rest))
  {
    var all := [e] + es;
    assert all[0] == e && all[1..] == es;
    SidesOfCons(e, es);
    NoSidesNoEdits(all);
    Assoc([[Mark(e.kind)] + e.text], lines, rest);
    ReadBodyLine(e, lines + rest, |OldSide(all)|, |NewSide(all)|);
  }

  ghost predicate Counted(w: WireHunk) {
    w.oldCount == |OldSide(w.edits)| && w.newCount == |NewSide(w.edits)|
  }

  lemma ReadOneHunk(lines: seq<Line>, w: WireHunk, rest: seq<Line>, ws: seq<WireHunk>)
    requires ReadHeader(HeaderLine(w)) == Some((w.oldAt, w.oldCount, w.newAt, w.newCount))
    requires ReadBody(lines, w.oldCount, w.newCount) == Some((w.edits, rest)) && |rest| <= |lines|
    requires ReadHunks(rest) == Some(ws)
    ensures ReadHunks([HeaderLine(w)] + lines) == Some([w] + ws)
  {
    assert ([HeaderLine(w)] + lines)[1..] == lines;
  }

  /** Main result: the spelled lines read back as the hunks that were spelled. */
  lemma {:induction false} ReadBackHunks(ws: seq<WireHunk>)
    requires forall w :: w in ws ==> Counted(w)
    ensures ReadHunks(HunkLines(ws)) == Some(ws)
  {
    if ws != [] {
      assert Counted(ws[0]);
      ReadBackHunks(ws[1..]);
      ReadBackHeader(ws[0]);
      ReadBackBody(ws[0].edits, HunkLines(ws[1..]));
      ReadOneHunk(BodyLines(ws[0].edits) + HunkLines(ws[1..]), ws[0], HunkLines(ws[1..]), ws[1..]);
      assert ws == [ws[0]] + ws[1..];
    }
  }

  // ----- The whole diff -----

  lemma AllNewlineFree(ws: seq<WireHunk>)
    requires forall w, e :: w in ws && e in w.edits ==> NewlineFree(e.text)
    ensures forall l :: l in HunkLines(ws) ==> NewlineFree(l)
  {
    if ws != [] {
      AllNewlineFree(ws[1..]);
      BodyNewlineFree(ws[0].edits);
      HeaderNewlineFree(ws[0]);
    }
  }

  lemma BodyNewlineFree(es: seq<Edit>)
    requires forall e :: e in es ==> NewlineFree(e.text)
    ensures forall l :: l in BodyLines(es) ==> NewlineFree(l)
  {
    if es != [] {
      BodyNewlineFree(es[1..]);
    }
  }

  lemma DecimalNewlineFree(n: nat)
    ensures NewlineFree(Decimal(n))
  {
  }

  lemma HeaderNewlineFree(w: WireHunk)
    ensures NewlineFree(HeaderLine(w))
  {
    DecimalNewlineFree(w.oldAt);
    DecimalNewlineFree(w.oldCount);
    DecimalNewlineFree(w.newAt);
    DecimalNewlineFree(w.newCount);
  }

  /** Every edit carries a line of one of the two files. */
  lemma EditTexts(es: seq<Edit>, e: Edit)
    requires e in es
    ensures e.text in OldSide(es) || e.text in NewSide(es)
  {
    var i :| 0 <= i < |es| && es[i] == e;
    assert es == es[..i] + [e] + es[i + 1..];
    SidesOfConcat(es[..i], [e]);
    SidesOfConcat(es[..i] + [e], es[i + 1..]);
    assert DropLast([e]) == [];
  }

  /**
   The hunks hold as few changes as any script between the two files, each
   with removals before additions and three lines of context around; and they
   are the hunks of the preferred one among the cheapest scripts.
   */
  ghost predicate ShowsLeast(ws: seq<WireHunk>, a: seq<Line>, b: seq<Line>) {
    && (forall es :: Transforms(es, a, b) ==> TotalCost(ws) <= Cost(es))
    && (forall w :: w in ws ==> Shown(w, |a|, |b|))
    && (exists es :: MinimalScript(es, a, b) && Chain(es, ws, 0))
  }

  /** What `computeUnifiedDiff` promises about its text. */
  ghost predicate DescribesChange(body: string, oldText: string, newText: string) {
    var ws := ReadPatch(body);
    && ws.Some?
    && Patch(Lines(oldText), ws.value, 0, 0) == Some(Lines(newText))
    && Patch(Lines(newText), FlipAll(ws.value), 0, 0) == Some(Lines(oldText))
    && ShowsLeast(ws.value, Lines(oldText), Lines(newText))
    && (body == "" <==> Terminated(oldText) == Terminated(newText))
  }

  function Unchanged(a: seq<Line>): seq<Edit> {
    if a == [] then [] else Unchanged(DropLast(a)) + [Edit(Context, Last(a))]
  }

  lemma {:induction false} UnchangedIsFree(a: seq<Line>)
    ensures Transforms(Unchanged(a), a, a) && Cost(Unchanged(a)) == 0
  {
    if a != [] {
      UnchangedIsFree(DropLast(a));
      AppendEdit(Unchanged(DropLast(a)), Edit(Context, Last(a)));
      SplitLast(a);
      assert DropLast(Unchanged(a)) == Unchanged(DropLast(a));
    }
  }

  lemma {:induction false} FreeIsAllContext(es: seq<Edit>)
    requires Cost(es) == 0
    ensures AllContext(es, 0, |es|)
  {
    if es != [] {
      FreeIsAllContext(DropLast(es));
      forall i | 0 <= i < |es| ensures !IsChange(es, i) {
        assert i < |es| - 1 ==> !IsChange(DropLast(es), i);
      }
    }
  }

  /** A minimal script changes something exactly when the files differ. */
  lemma NoChangeIff(es: seq<Edit>, a: seq<Line>, b: seq<Line>)
    requires MinimalScript(es, a, b)
    ensures AllContext(es, 0, |es|) <==> a == b
  {
    if AllContext(es, 0, |es|) {
      ContextRange(es, 0, |es|);
      WholeIsSide(es);
    }
    if a == b {
      UnchangedIsFree(a);
      FreeIsAllContext(es);
    }
  }

  lemma CarriedCounted(es: seq<Edit>, spans: seq<Span>, hunks: seq<Hunk>)
    requires Grouping(es, spans) && Carries(es, spans, hunks)
    ensures forall h :: h in hunks ==> h.oldStart > 0 && h.newStart > 0
    ensures forall w :: w in AllToWire(hunks) ==> Counted(w)
    ensures forall w, e :: w in AllToWire(hunks) && e in w.edits ==> e in es
  {
    CarriedStartsPositive(es, spans, hunks);
    var ws := AllToWire(hunks);
    forall w | w in ws ensures Counted(w) && forall e :: e in w.edits ==> e in es {
      var k :| 0 <= k < |ws| && ws[k] == w;
      HunkCounted(es, spans[k].lo, spans[k].hi, hunks[k]);
    }
  }

  lemma {:induction false} HunkCounted(es: seq<Edit>, lo: nat, hi: nat, h: Hunk)
    requires lo <= hi <= |es| && h == HunkOf(es, lo, hi)
    ensures Counted(ToWire(h)) && forall e :: e in ToWire(h).edits ==> e in es
  {
    assert h.edits == es[lo..hi];
    RangeIsSide(es, lo, hi);
  }

  /** The emitted body reads back as the hunks. */
  lemma BodyReadsBack(es: seq<Edit>, spans: seq<Span>, hunks: seq<Hunk>)
    requires Grouping(es, spans) && Carries(es, spans, hunks)
    requires forall e :: e in es ==> NewlineFree(e.text)
    ensures forall h :: h in hunks ==> h.oldStart > 0 && h.newStart > 0
    ensures ReadPatch(Unlines(HunkLines(AllToWire(hunks)))) == Some(AllToWire(hunks))
  {
    CarriedCounted(es, spans, hunks);
    var ws := AllToWire(hunks);
    AllNewlineFree(ws);
    LinesOfUnlines(HunkLines(ws));
    ReadBackHunks(ws);
  }

  lemma ScriptLinesNewlineFree(es: seq<Edit>, oldText: string, newText: string)
    requires Transforms(es, Lines(oldText), Lines(newText))
    ensures forall e :: e in es ==> NewlineFree(e.text)
  {
    UnlinesOfLines(oldText);
    UnlinesOfLines(newText);
    forall e | e in es ensures NewlineFree(e.text) {
      EditTexts(es, e);
    }
  }

  lemma EmptyBodyIff(ws: seq<WireHunk>)
    ensures Unlines(HunkLines(ws)) == "" <==> ws == []
  {
  }

  lemma EmittedTextReadsBack(es: seq<Edit>, spans: seq<Span>, hunks: seq<Hunk>, oldText: string, newText: string)
    requires MinimalScript(es, Lines(oldText), Lines(newText))
    requires Grouping(es, spans) && Carries(es, spans, hunks)
    requires hunks == [] <==> AllContext(es, 0, |es|)
    ensures forall h :: h in hunks ==> h.oldStart > 0 && h.newStart > 0
    ensures DescribesChange(Unlines(HunkLines(AllToWire(hunks))), oldText, newText)
  {
    ScriptLinesNewlineFree(es, oldText, newText);
    BodyReadsBack(es, spans, hunks);
    PatchApplies(es, spans, hunks);
    PatchReverses(es, spans, hunks);
    HunksShow(es, spans, hunks);
    assert ShowsLeast(AllToWire(hunks), Lines(oldText), Lines(newText));
    EmptyBodyIff(AllToWire(hunks));
    NoChangeIff(es, Lines(oldText), Lines(newText));
    SameLinesIff(oldText, newText);
  }

  lemma {:induction false} HunkLinesSnoc(ws: seq<WireHunk>, w: WireHunk)
    ensures HunkLines(ws + [w]) == HunkLines(ws) + OneHunk(w)
  {
    if ws == [] {
      assert (ws + [w])[1..] == [];
      assert BodyLines(w.edits) + [] == BodyLines(w.edits);
    } else {
      HunkLinesSnoc(ws[1..], w);
      assert (ws + [w])[1..] == ws[1..] + [w];
      Assoc(BodyLines(ws[0].edits), HunkLines(ws[1..]), OneHunk(w));
      Assoc([HeaderLine(ws[0])], BodyLines(ws[0].edits) + HunkLines(ws[1..]), OneHunk(w));
    }
  }

  lemma EmitStep(ws: seq<WireHunk>, i: nat)
    requires i < |ws|
    ensures Unlines(HunkLines(ws[..i + 1])) == Unlines(HunkLines(ws[..i])) + Unlines(OneHunk(ws[i]))
  {
    assert ws[..i + 1] == ws[..i] + [ws[i]];
    HunkLinesSnoc(ws[..i], ws[i]);
    UnlinesOfConcat(HunkLines(ws[..i]), OneHunk(ws[i]));
  }

  /** Spells the hunks one after another. */
  method EmitHunks(header: string, hunks: seq<Hunk>) returns (out: string)
    requires forall h :: h in hunks ==> h.oldStart > 0 && h.newStart > 0
    ensures out == header + Unlines(HunkLines(AllToWire(hunks)))
  {
    out := header;
    ghost var ws := AllToWire(hunks);
    var i := 0;
    while i < |hunks|
      invariant 0 <= i <= |hunks|
      invariant out == header + Unlines(HunkLines(ws[..i]))
    {
      assert hunks[i] in hunks;
      EmitStep(ws, i);
      Assoc(header, Unlines(HunkLines(ws[..i])), Unlines(OneHunk(ws[i])));
      out := EmitHunk(out, hunks[i]);
      i := i + 1;
    }
    assert ws[..|hunks|] == ws;
  }

  /**
   Main result: the diff is empty exactly for equal texts; otherwise what
   follows the line `---` with the old name and the line `+++` with the new
   one, read back as text, turns either file's lines into the other's with the
   fewest changes.
   */
  method ComputeUnifiedDiff(oldText: string, newText: string, oldName: string, newName: string)
    returns (out: string)
    requires (|Lines(oldText)| + 1) * (|Lines(newText)| + 1) <= SIZE_MAX
    ensures out == "" <==> oldText == newText
    ensures oldText != newText ==>
      var header := "--- " + oldName + "\n+++ " + newName + "\n";
      && |header| <= |out| && out[..|header|] == header
      && DescribesChange(out[|header|..], oldText, newText)
  {
    if oldText == newText {
      return "";
    }
    var oldLines := SplitLines(oldText);
    var newLines := SplitLines(newText);
    var table := new LcsTable(|oldLines|, |newLines|);
    FillLcs(table, oldLines, newLines);
    var edits := TraceDiff(table, oldLines, newLines);
    var hunks, spans := GroupIntoHunks(edits);
    EmittedTextReadsBack(edits, spans, hunks, oldText, newText);
    var header := "--- " + oldName + "\n+++ " + newName + "\n";
    out := EmitHunks(header, hunks);
    assert out[|header|..] == Unlines(HunkLines(AllToWire(hunks)));
  }
}
