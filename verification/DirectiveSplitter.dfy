/**
 The formatter's directive splitter (lib/Fmt/DirectiveSplitter.cpp): cuts a
 source into preprocessor directives and the fragments between them.
 */
module DirectiveSplitter {
  import opened Wrappers

  datatype Opcode = Include | Define | Ifdef | Ifndef | Endif | If | Else | Undef | LineOp

  datatype Slice = Slice(begin: nat, end: nat, directive: Option<Opcode>)

  // ----- Lines -----

  predicate IsBlank(c: char) {
    c == ' ' || c == '\t'
  }

  predicate IsBreak(c: char) {
    c == '\n' || c == '\r'
  }

  /** A line starts here; not between the two characters of a CRLF. */
  predicate LineStart(s: string, p: nat)
    requires p <= |s|
  {
    p == 0 || s[p - 1] == '\n' || (s[p - 1] == '\r' && !(p < |s| && s[p] == '\n'))
  }

  function SkipBlanks(s: string, p: nat): (q: nat)
    requires p <= |s|
    ensures p <= q <= |s|
    ensures forall i :: p <= i < q ==> IsBlank(s[i])
    ensures q < |s| ==> !IsBlank(s[q])
    decreases |s| - p
  {
    if p < |s| && IsBlank(s[p]) then SkipBlanks(s, p + 1) else p
  }

  /** The first character of the line that is not blank is `#`. */
  predicate HashLed(s: string, p: nat)
    requires p <= |s|
  {
    SkipBlanks(s, p) < |s| && s[SkipBlanks(s, p)] == '#'
  }

  /** One past the line break at `q`: a CRLF is one break. */
  function PastBreak(s: string, q: nat): (r: nat)
    requires q < |s|
    ensures q < r <= |s|
  {
    if s[q] == '\r' && q + 1 < |s| && s[q + 1] == '\n' then q + 2 else q + 1
  }

  // ----- Where a directive ends -----

  /** A line break at `q` that ends a directive begun at `start`: not escaped, and not the tail of a CRLF. */
  predicate Live(s: string, start: nat, q: nat) {
    && start <= q < |s|
    && IsBreak(s[q])
    && !(start < q && s[q - 1] == '\\')
    && !(start < q && s[q - 1] == '\r' && s[q] == '\n')
  }

  /** `end` is just after the first live break, or the end of the text when there is none. */
  ghost predicate EndsAt(s: string, start: nat, end: nat) {
    || (exists q :: Live(s, start, q) && end == PastBreak(s, q) && forall p :: start <= p < q ==> !Live(s, start, p))
    || (end == |s| && forall p :: start <= p < |s| ==> !Live(s, start, p))
  }

  lemma {:induction false} EndIsUnique(s: string, start: nat, a: nat, b: nat)
    requires EndsAt(s, start, a) && EndsAt(s, start, b)
    ensures a == b
  {
    if q :| Live(s, start, q) && forall p :: start <= p < q ==> !Live(s, start, p) {
      assert a == PastBreak(s, q) && b == PastBreak(s, q);
    }
  }

  method FindDirectiveLineEnd(s: string, start: nat) returns (end: nat)
    requires start <= |s|
    ensures start <= end <= |s| && EndsAt(s, start, end)
    ensures end < |s| ==> LineStart(s, end)
  {
    var pos := start;
    while pos < |s|
      invariant start <= pos <= |s|
      invariant forall p :: start <= p < pos ==> !Live(s, start, p)
      invariant start < pos < |s| && IsBreak(s[pos]) ==> s[pos - 1] != '\\' && !(s[pos - 1] == '\r' && s[pos] == '\n')
    {
      var c := s[pos];
      if c == '\\' && pos + 1 < |s| && IsBreak(s[pos + 1]) {
        pos := PastBreak(s, pos + 1);
      } else if IsBreak(c) {
        assert Live(s, start, pos);
        return PastBreak(s, pos);
      } else {
        pos := pos + 1;
      }
    }
    return pos;
  }

  // ----- Where the next directive starts -----

  method FindNextDirectiveStart(s: string, start: nat) returns (next: nat)
    requires start <= |s| && LineStart(s, start)
    ensures start <= next <= |s|
    ensures next < |s| ==> LineStart(s, next) && HashLed(s, next)
    ensures forall p :: start <= p < next && LineStart(s, p) ==> !HashLed(s, p)
  {
    var pos := start;
    while pos < |s|
      invariant start <= pos <= |s|
      invariant pos < |s| ==> LineStart(s, pos)
      invariant forall p :: start <= p < pos && LineStart(s, p) ==> !HashLed(s, p)
    {
      if HashLed(s, pos) {
        return pos;
      }
      var lineStart := pos;
      while pos < |s| && !IsBreak(s[pos])
        invariant lineStart <= pos <= |s|
        invariant forall p :: lineStart <= p < pos ==> !IsBreak(s[p])
        decreases |s| - pos
      {
        pos := pos + 1;
      }
      assert forall p :: lineStart < p <= pos ==> !LineStart(s, p);
      if pos < |s| {
        pos := PastBreak(s, pos);
      }
    }
    return |s|;
  }

  // ----- Opcodes -----

  function Spelling(op: Opcode): string {
    match op
    case Include => "include"
    case Define => "define"
    case Ifdef => "ifdef"
    case Ifndef => "ifndef"
    case Endif => "endif"
    case If => "if"
    case Else => "else"
    case Undef => "undef"
    case LineOp => "line"
  }

  const TABLE: seq<Opcode> := [Include, Define, Ifdef, Ifndef, Endif, If, Else, Undef, LineOp]

  /** The name stands at `p` and ends at a blank, a line break or the end. */
  predicate Names(s: string, p: nat, op: Opcode) {
    var after := p + |Spelling(op)|;
    && after <= |s|
    && s[p..after] == Spelling(op)
    && (after == |s| || IsBlank(s[after]) || IsBreak(s[after]))
  }

  /** Neither a line break nor a backslash. */
  predicate Inner(c: char) {
    !IsBreak(c) && c != '\\'
  }

  predicate IsLower(c: char) {
    'a' <= c <= 'z'
  }

  lemma SpellingsAreLower(op: Opcode)
    ensures forall i :: 0 <= i < |Spelling(op)| ==> IsLower(Spelling(op)[i])
  {
  }

  lemma {:induction false} NameIsInner(s: string, p: nat, op: Opcode)
    requires Names(s, p, op)
    ensures forall i :: p <= i < p + |Spelling(op)| ==> Inner(s[i])
  {
    SpellingsAreLower(op);
    forall i | p <= i < p + |Spelling(op)| ensures Inner(s[i]) {
      assert s[i] == s[p..p + |Spelling(op)|][i - p];
    }
  }

  lemma TableIsComplete(op: Opcode)
    ensures op in TABLE
  {
  }

  method DecodeOpcode(s: string, start: nat) returns (op: Option<Opcode>, after: nat)
    requires start <= |s|
    ensures start <= after <= |s| && forall i :: start <= i < after ==> Inner(s[i])
    ensures op.Some? ==> Names(s, SkipBlanks(s, start), op.value)
    ensures op.None? ==> forall o :: !Names(s, SkipBlanks(s, start), o)
  {
    var pos := SkipBlanks(s, start);
    var k := 0;
    while k < |TABLE|
      invariant 0 <= k <= |TABLE|
      invariant forall j :: 0 <= j < k ==> !Names(s, pos, TABLE[j])
    {
      if Names(s, pos, TABLE[k]) {
        after := pos + |Spelling(TABLE[k])|;
        NameIsInner(s, pos, TABLE[k]);
        return Some(TABLE[k]), after;
      }
      k := k + 1;
    }
    forall o ensures !Names(s, pos, o) {
      TableIsComplete(o);
    }
    return None, pos;
  }

  // ----- Splitting -----

  /** The slices are non-empty and follow one another from `0` to `upTo`. */
  predicate Chained(slices: seq<Slice>, upTo: nat) {
    && (forall i :: 0 <= i < |slices| ==> slices[i].begin < slices[i].end)
    && (forall i :: 0 < i < |slices| ==> slices[i].begin == slices[i - 1].end)
    && (if slices == [] then upTo == 0 else slices[0].begin == 0 && slices[|slices| - 1].end == upTo)
  }

  predicate NoAdjacentFragments(slices: seq<Slice>) {
    forall i :: 0 < i < |slices| ==> slices[i - 1].directive.Some? || slices[i].directive.Some?
  }

  /** Where the opcode of the `#`-led line at `p` would stand. */
  function OpcodeAt(s: string, p: nat): nat
    requires p <= |s| && HashLed(s, p)
  {
    SkipBlanks(s, SkipBlanks(s, p) + 1)
  }

  /** The label of a directive: the opcode named after the `#`, or `Include` when none is. */
  ghost predicate Labels(s: string, p: nat, op: Opcode)
    requires p <= |s| && HashLed(s, p)
  {
    Names(s, OpcodeAt(s, p), op) || (op == Include && forall o :: !Names(s, OpcodeAt(s, p), o))
  }

  /** No spelling is another one cut short at a blank or a line break. */
  lemma {:induction false} NamesOnlyOne(s: string, p: nat, a: Opcode, b: Opcode)
    requires Names(s, p, a) && Names(s, p, b)
    ensures a == b
  {
    var x, y := Spelling(a), Spelling(b);
    NameChar(s, p, a, |x|);
    NameChar(s, p, b, |x|);
    NameChar(s, p, a, |y|);
    NameChar(s, p, b, |y|);
    assert |x| == |y|;
    SpellingsDiffer(a, b);
  }

  /** A name is lower-case letters, and what follows it is not one. */
  lemma {:induction false} NameChar(s: string, p: nat, op: Opcode, i: nat)
    requires Names(s, p, op)
    ensures i < |Spelling(op)| ==> p + i < |s| && IsLower(s[p + i])
    ensures i == |Spelling(op)| ==> p + i == |s| || !IsLower(s[p + i])
  {
    if i < |Spelling(op)| {
      SpellingsAreLower(op);
      assert s[p..p + |Spelling(op)|][i] == s[p + i];
    }
  }

  lemma SpellingsDiffer(a: Opcode, b: Opcode)
    ensures Spelling(a) == Spelling(b) ==> a == b
  {
    var x, y := Spelling(a), Spelling(b);
    if x == y {
      assert x[0] == y[0] && x[1] == y[1] && |x| == |y|;
      if |x| > 2 {
        assert x[2] == y[2];
      }
    }
  }

  /** A fragment holds no `#`-led line; a directive is one, ends where it must and has the right label. */
  ghost predicate Proper(s: string, x: Slice) {
    && x.begin < x.end <= |s| && LineStart(s, x.begin)
    && if x.directive.None?
       then forall p :: x.begin <= p < x.end && LineStart(s, p) ==> !HashLed(s, p)
       else HashLed(s, x.begin) && EndsAt(s, x.begin, x.end) && Labels(s, x.begin, x.directive.value)
  }

  ghost predicate AllProper(s: string, slices: seq<Slice>) {
    forall i {:trigger Proper(s, slices[i])} :: 0 <= i < |slices| ==> Proper(s, slices[i])
  }

  ghost predicate Partitions(s: string, slices: seq<Slice>, upTo: nat) {
    Chained(slices, upTo) && NoAdjacentFragments(slices) && AllProper(s, slices)
  }

  lemma {:induction false} PartitionsMore(s: string, slices: seq<Slice>, upTo: nat, x: Slice)
    requires Partitions(s, slices, upTo) && Proper(s, x) && x.begin == upTo
    requires slices == [] || slices[|slices| - 1].directive.Some? || x.directive.Some?
    ensures Partitions(s, slices + [x], x.end)
  {
    ChainedMore(slices, upTo, x);
    AllProperMore(s, slices, x);
  }

  lemma {:induction false} ChainedMore(slices: seq<Slice>, upTo: nat, x: Slice)
    requires Chained(slices, upTo) && NoAdjacentFragments(slices) && x.begin == upTo && x.begin < x.end
    requires slices == [] || slices[|slices| - 1].directive.Some? || x.directive.Some?
    ensures Chained(slices + [x], x.end) && NoAdjacentFragments(slices + [x])
  {
  }

  lemma {:induction false} AllProperMore(s: string, slices: seq<Slice>, x: Slice)
    requires AllProper(s, slices) && Proper(s, x)
    ensures AllProper(s, slices + [x])
  {
    forall i | 0 <= i < |slices + [x]| ensures Proper(s, (slices + [x])[i]) {
      assert (slices + [x])[i] == if i < |slices| then slices[i] else x;
    }
  }

  /** Nothing between the line's start and the opcode's end can end the directive. */
  lemma {:induction false} EndFromLineStart(s: string, begin: nat, after: nat, end: nat)
    requires begin < after <= |s| && (forall i :: begin <= i < after ==> Inner(s[i])) && EndsAt(s, after, end)
    ensures EndsAt(s, begin, end)
  {
    forall q | begin <= q < |s| ensures Live(s, begin, q) == (after <= q && Live(s, after, q)) {
      if q == after {
        assert Inner(s[q - 1]);
      }
    }
    if q :| Live(s, after, q) && end == PastBreak(s, q) && forall p :: after <= p < q ==> !Live(s, after, p) {
      assert Live(s, begin, q);
    }
  }

  /** Takes the directive on the `#`-led line at `begin`. */
  method TakeDirective(s: string, begin: nat) returns (x: Slice)
    requires begin < |s| && LineStart(s, begin) && HashLed(s, begin)
    ensures Proper(s, x) && x.directive.Some? && x.begin == begin
    ensures x.end < |s| ==> LineStart(s, x.end)
  {
    var hash := SkipBlanks(s, begin);
    var op, after := DecodeOpcode(s, hash + 1);
    var end := FindDirectiveLineEnd(s, after);
    x := Slice(begin, end, Some(if op.Some? then op.value else Include));
    DirectiveIsProper(s, begin, after, end, op);
  }

  lemma {:induction false} DirectiveIsProper(s: string, begin: nat, after: nat, end: nat, op: Option<Opcode>)
    requires begin < |s| && LineStart(s, begin) && HashLed(s, begin)
    requires op.Some? ==> Names(s, OpcodeAt(s, begin), op.value)
    requires op.None? ==> forall o :: !Names(s, OpcodeAt(s, begin), o)
    requires SkipBlanks(s, begin) < after <= end <= |s| && EndsAt(s, after, end)
    requires forall i :: SkipBlanks(s, begin) + 1 <= i < after ==> Inner(s[i])
    ensures Proper(s, Slice(begin, end, Some(if op.Some? then op.value else Include)))
  {
    LeadIsInner(s, begin, after);
    EndFromLineStart(s, begin, after, end);
    assert Labels(s, begin, if op.Some? then op.value else Include);
  }

  /** Blanks, the `#` and what follows it up to the opcode's end cannot end the directive. */
  lemma {:induction false} LeadIsInner(s: string, begin: nat, after: nat)
    requires begin < |s| && HashLed(s, begin) && SkipBlanks(s, begin) < after <= |s|
    requires forall i :: SkipBlanks(s, begin) + 1 <= i < after ==> Inner(s[i])
    ensures forall i :: begin <= i < after ==> Inner(s[i])
  {
  }

  /** Main result: the slices partition the source into directives and the fragments between them. */
  method Split(s: string) returns (slices: seq<Slice>)
    ensures Partitions(s, slices, |s|)
  {
    slices := [];
    var pos := 0;
    while pos < |s|
      invariant pos <= |s|
      invariant pos < |s| ==> LineStart(s, pos)
      invariant slices != [] ==> pos == |s| || slices[|slices| - 1].directive.Some?
      invariant Partitions(s, slices, pos)
      decreases |s| - pos
    {
      var next := FindNextDirectiveStart(s, pos);
      if next > pos {
        PartitionsMore(s, slices, pos, Slice(pos, next, None));
        slices := slices + [Slice(pos, next, None)];
      }
      if next >= |s| {
        pos := |s|;
        break;
      }
      var x := TakeDirective(s, next);
      PartitionsMore(s, slices, next, x);
      slices := slices + [x];
      pos := x.end;
    }
  }

  function Text(s: string, slices: seq<Slice>): string
    requires forall i :: 0 <= i < |slices| ==> slices[i].begin <= slices[i].end <= |s|
  {
    if slices == [] then "" else
    var last := slices[|slices| - 1];
    Text(s, slices[..|slices| - 1]) + s[last.begin..last.end]
  }

  /** Slices that follow one another spell the source, every byte once and in order. */
  lemma {:induction false} ChainedText(s: string, slices: seq<Slice>, upTo: nat)
    requires Chained(slices, upTo) && upTo <= |s|
    requires forall i :: 0 <= i < |slices| ==> slices[i].begin <= slices[i].end <= |s|
    ensures Text(s, slices) == s[..upTo]
    decreases |slices|
  {
    if slices != [] {
      var front, last := slices[..|slices| - 1], slices[|slices| - 1];
      if front != [] {
        assert front[|front| - 1].end == last.begin;
      }
      ChainedText(s, front, last.begin);
      assert s[..last.begin] + s[last.begin..upTo] == s[..upTo];
    }
  }

  /** Main result: there is only one such partition. */
  lemma {:induction false} PartitionIsUnique(s: string, a: seq<Slice>, b: seq<Slice>)
    requires Partitions(s, a, |s|) && Partitions(s, b, |s|)
    ensures a == b
    decreases |a|
  {
    if |a| <= |b| {
      forall n | 0 <= n < |a| ensures a[n] == b[n] {
        SameAt(s, a, b, n);
      }
      if |a| < |b| {
        EndsInside(s, b, |a|);
      }
    } else {
      PartitionIsUnique(s, b, a);
    }
  }

  /** Before the last slice the partition has not reached the end of the source. */
  lemma {:induction false} EndsInside(s: string, b: seq<Slice>, n: nat)
    requires Partitions(s, b, |s|) && n < |b|
    ensures b[n].end <= |s| && (if n == 0 then 0 < |s| else b[n - 1].end < |s|)
  {
    assert Proper(s, b[n]);
  }

  lemma {:induction false} SameAt(s: string, a: seq<Slice>, b: seq<Slice>, n: nat)
    requires Partitions(s, a, |s|) && Partitions(s, b, |s|) && n < |a| && n < |b|
    ensures a[n] == b[n]
    decreases n
  {
    if n > 0 {
      SameAt(s, a, b, n - 1);
    }
    SameBegin(s, a, b, n);
    SameNext(s, a, b, n);
  }

  lemma {:induction false} SameBegin(s: string, a: seq<Slice>, b: seq<Slice>, n: nat)
    requires Partitions(s, a, |s|) && Partitions(s, b, |s|) && n < |a| && n < |b|
    requires n > 0 ==> a[n - 1] == b[n - 1]
    ensures a[n].begin == b[n].begin
  {
  }

  lemma {:induction false} SameNext(s: string, a: seq<Slice>, b: seq<Slice>, n: nat)
    requires Partitions(s, a, |s|) && Partitions(s, b, |s|)
    requires n < |a| && n < |b| && a[n].begin == b[n].begin
    ensures a[n] == b[n]
  {
    assert Proper(s, a[n]) && Proper(s, b[n]);
    if a[n].directive.Some? {
      EndIsUnique(s, a[n].begin, a[n].end, b[n].end);
      LabelIsUnique(s, a[n].begin, a[n].directive.value, b[n].directive.value);
    } else if a[n].end < b[n].end {
      FragmentEnds(s, a, n);
    } else if b[n].end < a[n].end {
      FragmentEnds(s, b, n);
    }
  }

  lemma {:induction false} LabelIsUnique(s: string, p: nat, a: Opcode, b: Opcode)
    requires p <= |s| && HashLed(s, p) && Labels(s, p, a) && Labels(s, p, b)
    ensures a == b
  {
    if Names(s, OpcodeAt(s, p), a) && Names(s, OpcodeAt(s, p), b) {
      NamesOnlyOne(s, OpcodeAt(s, p), a, b);
    }
  }

  /** A fragment that does not reach the end of the source stops at a `#`-led line. */
  lemma {:induction false} FragmentEnds(s: string, a: seq<Slice>, n: nat)
    requires Partitions(s, a, |s|)
    requires n < |a| && a[n].directive.None? && a[n].end < |s|
    ensures LineStart(s, a[n].end) && HashLed(s, a[n].end)
  {
    assert n + 1 < |a|;
    assert a[n + 1].begin == a[n].end && Proper(s, a[n + 1]);
  }
}
