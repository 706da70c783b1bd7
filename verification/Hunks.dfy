/**
 Grouping an edit script into hunks (lib/Fmt/Diff.cpp, groupIntoHunks), and the
 patch tool that consumes them: an independent reader of the hunk headers.
 */
module Hunks {
  import opened Wrappers
  import opened EditScript

  const CONTEXT_LINES: nat := 3

  /** Start lines count from 1. */
  datatype Hunk = Hunk(oldStart: nat, oldCount: nat, newStart: nat, newCount: nat, edits: seq<Edit>)

  // ----- What a grouping is -----

  /** A half-open range of script indices, and the first and last change in it. */
  datatype Span = Span(lo: nat, hi: nat, first: nat, last: nat)

  predicate IsChange(es: seq<Edit>, i: int) {
    0 <= i < |es| && !es[i].kind.Context?
  }

  ghost predicate AllContext(es: seq<Edit>, lo: int, hi: int) {
    forall i :: lo <= i < hi ==> !IsChange(es, i)
  }

  /** The range of a group: its changes with up to three lines of context on each side. */
  function PadBelow(groupStart: nat): nat {
    if groupStart >= CONTEXT_LINES then groupStart - CONTEXT_LINES else 0
  }

  function PadAbove(es: seq<Edit>, groupEnd: nat): nat {
    if groupEnd + CONTEXT_LINES + 1 <= |es| then groupEnd + CONTEXT_LINES + 1 else |es|
  }

  /**
   A span starts and ends at a change, padded by up to three lines and cut at
   the ends of the script; inside it no two neighbouring changes are more than
   six apart.
   */
  ghost predicate SpanOk(es: seq<Edit>, s: Span) {
    && IsChange(es, s.first) && IsChange(es, s.last) && s.first <= s.last
    && s.lo == PadBelow(s.first) && s.hi == PadAbove(es, s.last)
    && (forall i :: s.first <= i < s.last ==> ChangeSoon(es, i, s.last))
  }

  /** Some change follows index `i` within six, no later than `last`. */
  ghost predicate ChangeSoon(es: seq<Edit>, i: int, last: int) {
    exists j :: i < j <= i + 2 * CONTEXT_LINES && j <= last && IsChange(es, j)
  }

  /** Consecutive spans are more than six apart, with only context between them. */
  ghost predicate Apart(es: seq<Edit>, spans: seq<Span>, k: int)
    requires 0 < k < |spans|
  {
    && spans[k].first > spans[k - 1].last + 2 * CONTEXT_LINES
    && AllContext(es, spans[k - 1].last + 1, spans[k].first)
  }

  /** Spans in order that hold every change below `next`. */
  ghost predicate GroupedBelow(es: seq<Edit>, spans: seq<Span>, next: int) {
    && (forall k :: 0 <= k < |spans| ==> SpanOk(es, spans[k]))
    && (forall k :: 0 < k < |spans| ==> Apart(es, spans, k))
    && AllContext(es, 0, if spans == [] then next else spans[0].first)
    && (spans != [] ==> AllContext(es, Last(spans).last + 1, next))
  }

  ghost predicate Grouping(es: seq<Edit>, spans: seq<Span>) {
    GroupedBelow(es, spans, |es|)
  }

  /** The old lines of the edits `lo..hi`. */
  function OldRange(es: seq<Edit>, lo: nat, hi: nat): seq<Line>
    requires lo <= hi <= |es|
    decreases hi
  {
    if lo == hi then []
    else OldRange(es, lo, hi - 1) + (if es[hi - 1].kind.Added? then [] else [es[hi - 1].text])
  }

  /** The new lines of the edits `lo..hi`. */
  function NewRange(es: seq<Edit>, lo: nat, hi: nat): seq<Line>
    requires lo <= hi <= |es|
    decreases hi
  {
    if lo == hi then []
    else NewRange(es, lo, hi - 1) + (if es[hi - 1].kind.Removed? then [] else [es[hi - 1].text])
  }

  lemma {:induction false} RangeIsSide(es: seq<Edit>, lo: nat, hi: nat)
    requires lo <= hi <= |es|
    ensures OldSide(es[lo..hi]) == OldRange(es, lo, hi)
    ensures NewSide(es[lo..hi]) == NewRange(es, lo, hi)
    decreases hi
  {
    if lo < hi {
      assert DropLast(es[lo..hi]) == es[lo..hi - 1];
      RangeIsSide(es, lo, hi - 1);
    }
  }

  lemma WholeIsSide(es: seq<Edit>)
    ensures OldSide(es) == OldRange(es, 0, |es|)
    ensures NewSide(es) == NewRange(es, 0, |es|)
  {
    assert es[0..|es|] == es;
    RangeIsSide(es, 0, |es|);
  }

  lemma {:induction false} SplitRange(es: seq<Edit>, lo: nat, mid: nat, hi: nat)
    requires lo <= mid <= hi <= |es|
    ensures OldRange(es, lo, hi) == OldRange(es, lo, mid) + OldRange(es, mid, hi)
    ensures NewRange(es, lo, hi) == NewRange(es, lo, mid) + NewRange(es, mid, hi)
    decreases hi
  {
    if mid < hi {
      SplitRange(es, lo, mid, hi - 1);
      Assoc(OldRange(es, lo, mid), OldRange(es, mid, hi - 1), if es[hi - 1].kind.Added? then [] else [es[hi - 1].text]);
      Assoc(NewRange(es, lo, mid), NewRange(es, mid, hi - 1), if es[hi - 1].kind.Removed? then [] else [es[hi - 1].text]);
    }
  }

  lemma {:induction false} ContextRange(es: seq<Edit>, lo: nat, hi: nat)
    requires lo <= hi <= |es| && AllContext(es, lo, hi)
    ensures OldRange(es, lo, hi) == NewRange(es, lo, hi)
    decreases hi
  {
    if lo < hi {
      assert !IsChange(es, hi - 1);
      ContextRange(es, lo, hi - 1);
    }
  }

  /** The hunk that carries a range of the script. */
  function HunkOf(es: seq<Edit>, lo: nat, hi: nat): Hunk
    requires lo <= hi <= |es|
  {
    Hunk(|OldRange(es, 0, lo)| + 1, |OldRange(es, lo, hi)|, |NewRange(es, 0, lo)| + 1, |NewRange(es, lo, hi)|, es[lo..hi])
  }

  ghost predicate Carries(es: seq<Edit>, spans: seq<Span>, hunks: seq<Hunk>) {
    && |hunks| == |spans|
    && forall k :: 0 <= k < |spans| ==>
      spans[k].lo <= spans[k].hi <= |es| && hunks[k] == HunkOf(es, spans[k].lo, spans[k].hi)
  }

  /** Neighbouring spans never overlap. */
  lemma SpansApart(es: seq<Edit>, spans: seq<Span>, k: nat)
    requires Grouping(es, spans) && k < |spans|
    ensures spans[k].lo <= spans[k].first <= spans[k].last < spans[k].hi <= |es|
    ensures k > 0 ==> spans[k - 1].hi <= spans[k].lo
  {
    assert SpanOk(es, spans[k]);
    if k > 0 {
      assert SpanOk(es, spans[k - 1]) && Apart(es, spans, k);
    }
  }

  lemma {:induction false} SpansOrdered(es: seq<Edit>, spans: seq<Span>, j: nat, k: nat)
    requires Grouping(es, spans) && j < k < |spans|
    ensures spans[j].hi <= spans[k].lo
    decreases k - j
  {
    SpansApart(es, spans, k);
    if j + 1 < k {
      SpansOrdered(es, spans, j, k - 1);
      SpansApart(es, spans, k - 1);
    }
  }

  /** Main result: every change lies in exactly one hunk. */
  lemma {:induction false} ChangeInOneSpan(es: seq<Edit>, spans: seq<Span>, i: nat)
    requires Grouping(es, spans) && IsChange(es, i)
    ensures exists k :: 0 <= k < |spans| && spans[k].lo <= i < spans[k].hi
    ensures forall j, k :: 0 <= j < k < |spans| ==> !(spans[j].lo <= i < spans[j].hi && spans[k].lo <= i < spans[k].hi)
  {
    forall j, k | 0 <= j < k < |spans|
      ensures spans[j].hi <= spans[k].lo
    {
      SpansOrdered(es, spans, j, k);
    }
    assert spans != [];
    var k := FindSpan(es, spans, i, |spans|);
    SpansApart(es, spans, k);
  }

  lemma {:induction false} FindSpan(es: seq<Edit>, spans: seq<Span>, i: nat, n: nat) returns (k: nat)
    requires Grouping(es, spans) && IsChange(es, i)
    requires 0 < n <= |spans| && (n == |spans| || i <= spans[n - 1].last)
    ensures k < |spans| && spans[k].first <= i <= spans[k].last
    decreases n
  {
    if n == |spans| {
      assert i <= Last(spans).last;
    }
    k := n - 1;
    if i < spans[k].first {
      assert k > 0;
      if k > 0 {
        assert Apart(es, spans, k);
        assert i <= spans[k - 1].last;
        k := FindSpan(es, spans, i, n - 1);
      }
    }
  }

  /**
   Main result: neighbouring changes share a hunk exactly when their indices
   differ by at most six, that is, when at most five context lines separate
   them; with six context lines between them the two hunks abut.
   */
  lemma SameHunkIff(es: seq<Edit>, spans: seq<Span>, i: nat, j: nat, m: nat, n: nat)
    requires Grouping(es, spans) && IsChange(es, i) && IsChange(es, j) && i < j && AllContext(es, i + 1, j)
    requires m < |spans| && spans[m].first <= i <= spans[m].last
    requires n < |spans| && spans[n].first <= j <= spans[n].last
    ensures m == n <==> j - i <= 2 * CONTEXT_LINES
    ensures j - i == 2 * CONTEXT_LINES + 1 ==> spans[m].hi == spans[n].lo
  {
    if m == n {
      assert SpanOk(es, spans[m]);
      assert ChangeSoon(es, i, spans[m].last);
    } else {
      if n < m {
        SpansOrdered(es, spans, n, m);
      } else {
        SpansOrdered(es, spans, m, n);
      }
      SpansApart(es, spans, m);
      SpansApart(es, spans, n);
      assert spans[m].last == i && spans[n].first == j;
      assert SpanOk(es, spans[m]) && SpanOk(es, spans[n]);
      if n > m + 1 {
        SpansOrdered(es, spans, m, m + 1);
        SpansOrdered(es, spans, m + 1, n);
        SpansApart(es, spans, m + 1);
        assert SpanOk(es, spans[m + 1]);
      } else {
        assert Apart(es, spans, n);
      }
    }
  }

  // ----- The loops of groupIntoHunks -----

  /** Line numbers on both sides before every edit, and after the last. */
  ghost predicate Cursors(es: seq<Edit>, oldLineAt: seq<nat>, newLineAt: seq<nat>) {
    && |oldLineAt| == |es| + 1 && |newLineAt| == |es| + 1
    && (forall i {:trigger oldLineAt[i]} :: 0 <= i <= |es| ==> oldLineAt[i] == |OldRange(es, 0, i)| + 1)
    && (forall i {:trigger newLineAt[i]} :: 0 <= i <= |es| ==> newLineAt[i] == |NewRange(es, 0, i)| + 1)
  }

  method LineCursors(es: seq<Edit>) returns (oldLineAt: seq<nat>, newLineAt: seq<nat>)
    ensures Cursors(es, oldLineAt, newLineAt)
  {
    oldLineAt, newLineAt := [], [];
    var o: nat, n: nat := 1, 1;
    var i := 0;
    while i < |es|
      invariant 0 <= i <= |es| && |oldLineAt| == i && |newLineAt| == i
      invariant o == |OldRange(es, 0, i)| + 1 && n == |NewRange(es, 0, i)| + 1
      invariant forall k {:trigger oldLineAt[k]} :: 0 <= k < i ==> oldLineAt[k] == |OldRange(es, 0, k)| + 1
      invariant forall k {:trigger newLineAt[k]} :: 0 <= k < i ==> newLineAt[k] == |NewRange(es, 0, k)| + 1
    {
      oldLineAt, newLineAt := oldLineAt + [o], newLineAt + [n];
      match es[i].kind {
        case Context => o, n := o + 1, n + 1;
        case Removed => o := o + 1;
        case Added => n := n + 1;
      }
      i := i + 1;
    }
    oldLineAt, newLineAt := oldLineAt + [o], newLineAt + [n];
  }

  /** `idx` lists the changes below `n`, in order. */
  ghost predicate ChangesBelow(es: seq<Edit>, idx: seq<nat>, n: nat) {
    && (forall k :: 0 <= k < |idx| ==> IsChange(es, idx[k]) && idx[k] < n)
    && (forall k :: 0 < k < |idx| ==> idx[k - 1] < idx[k])
    && (forall i :: 0 <= i < n && IsChange(es, i) ==> i in idx)
  }

  method ChangeIndices(es: seq<Edit>) returns (changeIdx: seq<nat>)
    ensures ChangesBelow(es, changeIdx, |es|)
  {
    changeIdx := [];
    var i := 0;
    while i < |es|
      invariant 0 <= i <= |es| && ChangesBelow(es, changeIdx, i)
    {
      if !es[i].kind.Context? {
        changeIdx := changeIdx + [i];
      }
      i := i + 1;
    }
  }

  lemma {:induction false} Increasing(idx: seq<nat>, j: nat, k: nat)
    requires forall i :: 0 < i < |idx| ==> idx[i - 1] < idx[i]
    requires j < k < |idx|
    ensures idx[j] < idx[k]
    decreases k - j
  {
    if j + 1 < k {
      Increasing(idx, j, k - 1);
    }
  }

  /** Only context lies before, between and after the listed changes. */
  lemma ContextBetween(es: seq<Edit>, idx: seq<nat>, k: nat)
    requires ChangesBelow(es, idx, |es|) && k <= |idx|
    ensures AllContext(es, if k == 0 then 0 else idx[k - 1] + 1, if k == |idx| then |es| else idx[k])
  {
    forall j, k | 0 <= j < k < |idx| ensures idx[j] < idx[k] {
      Increasing(idx, j, k);
    }
    var lo, hi := if k == 0 then 0 else idx[k - 1] + 1, if k == |idx| then |es| else idx[k];
    assert forall m :: 0 <= m < |idx| ==> !(lo <= idx[m] < hi);
  }

  /** The group built so far: its changes are close together. */
  ghost predicate OpenGroup(es: seq<Edit>, groupStart: int, groupEnd: int) {
    && IsChange(es, groupStart) && IsChange(es, groupEnd) && groupStart <= groupEnd
    && forall i :: groupStart <= i < groupEnd ==> ChangeSoon(es, i, groupEnd)
  }

  lemma ExtendGroup(es: seq<Edit>, groupStart: int, groupEnd: int, next: int)
    requires OpenGroup(es, groupStart, groupEnd)
    requires IsChange(es, next) && groupEnd < next <= groupEnd + 2 * CONTEXT_LINES
    ensures OpenGroup(es, groupStart, next)
  {
    forall i | groupStart <= i < next
      ensures ChangeSoon(es, i, next)
    {
      if i < groupEnd {
        assert ChangeSoon(es, i, groupEnd);
        var j :| i < j <= i + 2 * CONTEXT_LINES && j <= groupEnd && IsChange(es, j);
      } else {
        assert i < next <= i + 2 * CONTEXT_LINES;
      }
    }
  }

  /** The hunks finished before the group that starts at `next`. */
  ghost predicate Progress(es: seq<Edit>, spans: seq<Span>, hunks: seq<Hunk>, next: int) {
    && GroupedBelow(es, spans, next)
    && Carries(es, spans, hunks)
    && (spans != [] ==> next > Last(spans).last + 2 * CONTEXT_LINES)
  }

  lemma CloseGroup(es: seq<Edit>, spans: seq<Span>, span: Span, next: int)
    requires GroupedBelow(es, spans, span.first) && SpanOk(es, span) && AllContext(es, span.last + 1, next)
    requires spans != [] ==> span.first > Last(spans).last + 2 * CONTEXT_LINES
    ensures GroupedBelow(es, spans + [span], next)
  {
    var spans' := spans + [span];
    forall k | 0 < k < |spans'| ensures Apart(es, spans', k) {
      if k < |spans| {
        assert Apart(es, spans, k);
      }
    }
  }

  lemma CarryOneMore(es: seq<Edit>, spans: seq<Span>, hunks: seq<Hunk>, span: Span, h: Hunk)
    requires Carries(es, spans, hunks) && span.lo <= span.hi <= |es| && h == HunkOf(es, span.lo, span.hi)
    ensures Carries(es, spans + [span], hunks + [h])
  {
  }

  /** The hunk for the changes `groupStart..groupEnd`. */
  method HunkForGroup(es: seq<Edit>, oldLineAt: seq<nat>, newLineAt: seq<nat>, groupStart: nat, groupEnd: nat)
    returns (h: Hunk, ghost span: Span)
    requires Cursors(es, oldLineAt, newLineAt)
    requires OpenGroup(es, groupStart, groupEnd)
    ensures span.first == groupStart && span.last == groupEnd && SpanOk(es, span)
    ensures span.lo == PadBelow(groupStart) <= span.hi == PadAbove(es, groupEnd) <= |es|
    ensures h == HunkOf(es, PadBelow(groupStart), PadAbove(es, groupEnd))
  {
    var lo, hi := PadBelow(groupStart), PadAbove(es, groupEnd);
    var edits := [];
    var e := lo;
    while e < hi
      invariant lo <= e <= hi && edits == es[lo..e]
    {
      edits := edits + [es[e]];
      e := e + 1;
    }
    SplitRange(es, 0, lo, hi);
    h := Hunk(oldLineAt[lo], oldLineAt[hi] - oldLineAt[lo], newLineAt[lo], newLineAt[hi] - newLineAt[lo], edits);
    span := Span(lo, hi, groupStart, groupEnd);
  }

  method EmitGroup(es: seq<Edit>, oldLineAt: seq<nat>, newLineAt: seq<nat>, groupStart: nat, groupEnd: nat,
                   hunks: seq<Hunk>, ghost spans: seq<Span>, ghost next: nat)
    returns (hunks': seq<Hunk>, ghost spans': seq<Span>)
    requires Cursors(es, oldLineAt, newLineAt)
    requires OpenGroup(es, groupStart, groupEnd) && AllContext(es, groupEnd + 1, next)
    requires Progress(es, spans, hunks, groupStart)
    ensures |hunks'| > 0 && Carries(es, spans', hunks')
    ensures GroupedBelow(es, spans', next)
    ensures next > groupEnd + 2 * CONTEXT_LINES ==> Progress(es, spans', hunks', next)
  {
    var h, span := HunkForGroup(es, oldLineAt, newLineAt, groupStart, groupEnd);
    CloseGroup(es, spans, span, next);
    CarryOneMore(es, spans, hunks, span, h);
    hunks', spans' := hunks + [h], spans + [span];
  }

  /** Joins the next change to the open group, or closes the group and opens another. */
  method TakeChange(es: seq<Edit>, oldLineAt: seq<nat>, newLineAt: seq<nat>, groupStart: nat, groupEnd: nat,
                    hunks: seq<Hunk>, ghost spans: seq<Span>, next: nat)
    returns (groupStart': nat, hunks': seq<Hunk>, ghost spans': seq<Span>)
    requires Cursors(es, oldLineAt, newLineAt)
    requires OpenGroup(es, groupStart, groupEnd) && Progress(es, spans, hunks, groupStart)
    requires IsChange(es, next) && groupEnd < next && AllContext(es, groupEnd + 1, next)
    ensures OpenGroup(es, groupStart', next) && Progress(es, spans', hunks', groupStart')
  {
    var gap := next - groupEnd;
    if gap <= 2 * CONTEXT_LINES {
      ExtendGroup(es, groupStart, groupEnd, next);
      groupStart', hunks', spans' := groupStart, hunks, spans;
    } else {
      hunks', spans' := EmitGroup(es, oldLineAt, newLineAt, groupStart, groupEnd, hunks, spans, next);
      groupStart' := next;
    }
  }

  /** Groups the given changes; the caller has at least one. */
  method GroupChanges(es: seq<Edit>, oldLineAt: seq<nat>, newLineAt: seq<nat>, changeIdx: seq<nat>)
    returns (hunks: seq<Hunk>, ghost spans: seq<Span>)
    requires Cursors(es, oldLineAt, newLineAt)
    requires ChangesBelow(es, changeIdx, |es|) && changeIdx != []
    ensures Grouping(es, spans) && Carries(es, spans, hunks) && |hunks| > 0
  {
    hunks, spans := [], [];
    ContextBetween(es, changeIdx, 0);
    var groupStart, groupEnd := changeIdx[0], changeIdx[0];
    var k := 1;
    while k < |changeIdx|
      invariant 1 <= k <= |changeIdx|
      invariant groupEnd == changeIdx[k - 1] && OpenGroup(es, groupStart, groupEnd)
      invariant Progress(es, spans, hunks, groupStart)
    {
      ContextBetween(es, changeIdx, k);
      groupStart, hunks, spans :=
        TakeChange(es, oldLineAt, newLineAt, groupStart, groupEnd, hunks, spans, changeIdx[k]);
      groupEnd := changeIdx[k];
      k := k + 1;
    }
    ContextBetween(es, changeIdx, |changeIdx|);
    hunks, spans := EmitGroup(es, oldLineAt, newLineAt, groupStart, groupEnd, hunks, spans, |es|);
  }

  method GroupIntoHunks(es: seq<Edit>) returns (hunks: seq<Hunk>, ghost spans: seq<Span>)
    ensures Grouping(es, spans) && Carries(es, spans, hunks)
    ensures hunks == [] <==> AllContext(es, 0, |es|)
  {
    var oldLineAt, newLineAt := LineCursors(es);
    var changeIdx := ChangeIndices(es);
    if changeIdx == [] {
      ContextBetween(es, changeIdx, 0);
      hunks, spans := [], [];
      return;
    }
    hunks, spans := GroupChanges(es, oldLineAt, newLineAt, changeIdx);
    assert IsChange(es, changeIdx[0]);
  }

  // ----- Applying a patch -----

  /** A hunk as its header reports it: an empty side names the line before it. */
  datatype WireHunk = WireHunk(oldAt: nat, oldCount: nat, newAt: nat, newCount: nat, edits: seq<Edit>)

  function Reported(start: nat, count: nat): nat
    requires start > 0
  {
    if count == 0 then start - 1 else start
  }

  function ToWire(h: Hunk): WireHunk
    requires h.oldStart > 0 && h.newStart > 0
  {
    WireHunk(Reported(h.oldStart, h.oldCount), h.oldCount, Reported(h.newStart, h.newCount), h.newCount, h.edits)
  }

  function AllToWire(hunks: seq<Hunk>): (ws: seq<WireHunk>)
    requires forall h :: h in hunks ==> h.oldStart > 0 && h.newStart > 0
    ensures |ws| == |hunks| && forall k :: 0 <= k < |hunks| ==> ws[k] == ToWire(hunks[k])
  {
    seq(|hunks|, k requires 0 <= k < |hunks| => ToWire(hunks[k]))
  }

  /** The number of lines before a hunk, read back from its header. */
  function LinesBefore(at: nat, count: nat): int {
    if count == 0 then at else at - 1
  }

  /**
   Applies hunks to `file` from line `o` on, having written `n` lines. Fails
   unless every header names exactly the lines its body carries, in order.
   */
  function Patch(file: seq<Line>, ws: seq<WireHunk>, o: nat, n: nat): Option<seq<Line>>
    requires o <= |file|
    decreases |ws|
  {
    if ws == [] then Some(file[o..])
    else
      var w := ws[0];
      var at := LinesBefore(w.oldAt, w.oldCount);
      if !(o <= at && at + w.oldCount <= |file|) then None
      else if LinesBefore(w.newAt, w.newCount) != n + (at - o) then None
      else if OldSide(w.edits) != file[at..at + w.oldCount] || |NewSide(w.edits)| != w.newCount then None
      else
        var rest := Patch(file, ws[1..], at + w.oldCount, n + (at - o) + w.newCount);
        if rest.None? then None else Some(file[o..at] + NewSide(w.edits) + rest.value)
  }

  lemma CarriedStartsPositive(es: seq<Edit>, spans: seq<Span>, hunks: seq<Hunk>)
    requires Carries(es, spans, hunks)
    ensures forall h :: h in hunks ==> h.oldStart > 0 && h.newStart > 0
  {
  }

  /** The script index from which hunk `k` is still to be applied. */
  ghost function Resume(spans: seq<Span>, k: nat): nat
    requires k <= |spans|
  {
    if k == 0 then 0 else spans[k - 1].hi
  }

  lemma GapIsContext(es: seq<Edit>, spans: seq<Span>, k: nat)
    requires Grouping(es, spans) && k <= |spans|
    ensures Resume(spans, k) <= (if k == |spans| then |es| else spans[k].lo)
    ensures AllContext(es, Resume(spans, k), if k == |spans| then |es| else spans[k].lo)
  {
    if k > 0 { SpansApart(es, spans, k - 1); }
    if k < |spans| { SpansApart(es, spans, k); }
    if 0 < k < |spans| { assert Apart(es, spans, k); }
  }

  /** One hunk applied: the gap before it is copied, its body replaced. */
  lemma PatchStep(before: seq<Line>, gap: seq<Line>, body: seq<Line>, after: seq<Line>,
                  w: WireHunk, ws: seq<WireHunk>, n: nat, added: seq<Line>, result: seq<Line>)
    requires OldSide(w.edits) == body && |body| == w.oldCount
    requires NewSide(w.edits) == added && |added| == w.newCount
    requires LinesBefore(w.oldAt, w.oldCount) == |before| + |gap|
    requires LinesBefore(w.newAt, w.newCount) == n + |gap|
    requires Patch(before + gap + body + after, ws, |before| + |gap| + |body|, n + |gap| + |added|) == Some(result)
    ensures Patch(before + gap + body + after, [w] + ws, |before|, n) == Some(gap + added + result)
  {
    var file := before + gap + body + after;
    var at := |before| + |gap|;
    assert file[at..at + |body|] == body;
    assert file[|before|..at] == gap;
    PatchOne(file, |before|, at, w, ws, n, gap, body, added, result);
  }

  lemma {:induction false} PatchOne(file: seq<Line>, o: nat, at: nat, w: WireHunk, ws: seq<WireHunk>, n: nat,
                                    gap: seq<Line>, body: seq<Line>, added: seq<Line>, result: seq<Line>)
    requires o <= at && at + |body| <= |file| && file[o..at] == gap && file[at..at + |body|] == body
    requires OldSide(w.edits) == body && |body| == w.oldCount
    requires NewSide(w.edits) == added && |added| == w.newCount
    requires LinesBefore(w.oldAt, w.oldCount) == at && LinesBefore(w.newAt, w.newCount) == n + |gap|
    requires Patch(file, ws, at + |body|, n + |gap| + |added|) == Some(result)
    ensures Patch(file, [w] + ws, o, n) == Some(gap + added + result)
  {
    assert ([w] + ws)[1..] == ws;
  }

  ghost predicate WiresOf(es: seq<Edit>, spans: seq<Span>, ws: seq<WireHunk>) {
    && |ws| == |spans|
    && forall i :: 0 <= i < |spans| ==>
      spans[i].lo <= spans[i].hi <= |es| && ws[i] == ToWire(HunkOf(es, spans[i].lo, spans[i].hi))
  }

  /** From script index `c` on, the given hunks produce the rest of the new file. */
  ghost predicate Finishes(es: seq<Edit>, ws: seq<WireHunk>, c: nat)
    requires c <= |es|
  {
    && |OldRange(es, 0, c)| <= |OldRange(es, 0, |es|)|
    && Patch(OldRange(es, 0, |es|), ws, |OldRange(es, 0, c)|, |NewRange(es, 0, c)|) == Some(NewRange(es, c, |es|))
  }

  /** The old file around one hunk. */
  lemma OldAround(es: seq<Edit>, c: nat, lo: nat, hi: nat)
    requires c <= lo <= hi <= |es|
    ensures OldRange(es, 0, |es|) ==
      OldRange(es, 0, c) + OldRange(es, c, lo) + OldRange(es, lo, hi) + OldRange(es, hi, |es|)
    ensures |OldRange(es, 0, lo)| == |OldRange(es, 0, c)| + |OldRange(es, c, lo)|
    ensures |OldRange(es, 0, hi)| == |OldRange(es, 0, lo)| + |OldRange(es, lo, hi)|
  {
    SplitRange(es, 0, hi, |es|);
    SplitRange(es, 0, lo, hi);
    SplitRange(es, 0, c, lo);
  }

  /** The new file from the gap before a hunk on. */
  lemma NewAround(es: seq<Edit>, c: nat, lo: nat, hi: nat)
    requires c <= lo <= hi <= |es| && AllContext(es, c, lo)
    ensures NewRange(es, c, |es|) == OldRange(es, c, lo) + NewRange(es, lo, hi) + NewRange(es, hi, |es|)
    ensures |NewRange(es, 0, lo)| == |NewRange(es, 0, c)| + |OldRange(es, c, lo)|
    ensures |NewRange(es, 0, hi)| == |NewRange(es, 0, lo)| + |NewRange(es, lo, hi)|
  {
    SplitRange(es, c, hi, |es|);
    SplitRange(es, c, lo, hi);
    SplitRange(es, 0, lo, hi);
    SplitRange(es, 0, c, lo);
    ContextRange(es, c, lo);
  }

  lemma PatchHunk(es: seq<Edit>, c: nat, lo: nat, hi: nat, w: WireHunk, ws: seq<WireHunk>)
    requires Link(es, w, c, lo, hi) && Finishes(es, ws, hi)
    ensures Finishes(es, [w] + ws, c)
  {
    OldAround(es, c, lo, hi);
    NewAround(es, c, lo, hi);
    RangeIsSide(es, lo, hi);
    PatchStep(OldRange(es, 0, c), OldRange(es, c, lo), OldRange(es, lo, hi), OldRange(es, hi, |es|), w, ws,
              |NewRange(es, 0, c)|, NewRange(es, lo, hi), NewRange(es, hi, |es|));
  }

  lemma FinishesAtEnd(es: seq<Edit>, c: nat)
    requires c <= |es| && AllContext(es, c, |es|)
    ensures Finishes(es, [], c)
  {
    SplitRange(es, 0, c, |es|);
    ContextRange(es, c, |es|);
  }

  /** From index `c` on, the script is context and the given hunks, alternating. */
  ghost predicate Chain(es: seq<Edit>, ws: seq<WireHunk>, c: nat) {
    if ws == [] then c <= |es| && AllContext(es, c, |es|)
    else exists lo, hi :: Link(es, ws[0], c, lo, hi) && Chain(es, ws[1..], hi)
  }

  ghost predicate Link(es: seq<Edit>, w: WireHunk, c: nat, lo: nat, hi: nat) {
    c <= lo <= hi <= |es| && AllContext(es, c, lo) && w == ToWire(HunkOf(es, lo, hi))
  }

  lemma {:induction false} ChainFinishes(es: seq<Edit>, ws: seq<WireHunk>, c: nat)
    requires Chain(es, ws, c)
    ensures c <= |es| && Finishes(es, ws, c)
    decreases |ws|
  {
    if ws == [] {
      FinishesAtEnd(es, c);
    } else {
      var lo, hi :| Link(es, ws[0], c, lo, hi) && Chain(es, ws[1..], hi);
      ChainFinishes(es, ws[1..], hi);
      PatchHunk(es, c, lo, hi, ws[0], ws[1..]);
      assert [ws[0]] + ws[1..] == ws;
    }
  }

  lemma ChainCons(es: seq<Edit>, w: WireHunk, ws: seq<WireHunk>, c: nat, lo: nat, hi: nat)
    requires Link(es, w, c, lo, hi) && Chain(es, ws, hi)
    ensures Chain(es, [w] + ws, c)
  {
    var all := [w] + ws;
    assert all[1..] == ws;
    assert Link(es, all[0], c, lo, hi) && Chain(es, all[1..], hi);
  }

  /** Every wire hunk links up with the one before it. */
  ghost predicate Linked(es: seq<Edit>, spans: seq<Span>, ws: seq<WireHunk>)
    requires |ws| == |spans|
  {
    && (forall k {:trigger ws[k]} :: 0 <= k < |spans| ==> Link(es, ws[k], Resume(spans, k), spans[k].lo, spans[k].hi))
    && Chain(es, [], Resume(spans, |spans|))
  }

  lemma GroupingLinks(es: seq<Edit>, spans: seq<Span>, ws: seq<WireHunk>)
    requires Grouping(es, spans) && WiresOf(es, spans, ws)
    ensures Linked(es, spans, ws)
  {
    GapIsContext(es, spans, |spans|);
    forall k | 0 <= k < |spans| ensures Link(es, ws[k], Resume(spans, k), spans[k].lo, spans[k].hi) {
      GapIsContext(es, spans, k);
    }
  }

  lemma {:induction false} LinkedChains(es: seq<Edit>, spans: seq<Span>, ws: seq<WireHunk>, k: nat)
    requires |ws| == |spans| && Linked(es, spans, ws) && k <= |spans|
    ensures Chain(es, ws[k..], Resume(spans, k))
    decreases |spans| - k
  {
    if k < |spans| {
      LinkedChains(es, spans, ws, k + 1);
      ChainCons(es, ws[k], ws[k + 1..], Resume(spans, k), spans[k].lo, spans[k].hi);
      assert [ws[k]] + ws[k + 1..] == ws[k..];
    }
  }

  lemma PatchAll(es: seq<Edit>, spans: seq<Span>, ws: seq<WireHunk>)
    requires Grouping(es, spans) && WiresOf(es, spans, ws)
    ensures Patch(OldSide(es), ws, 0, 0) == Some(NewSide(es))
  {
    GroupingLinks(es, spans, ws);
    LinkedChains(es, spans, ws, 0);
    assert ws[0..] == ws;
    ChainFinishes(es, ws, 0);
    WholeIsSide(es);
  }

  /** Main result: the hunks, read from their headers, turn the old file into the new one. */
  lemma PatchApplies(es: seq<Edit>, spans: seq<Span>, hunks: seq<Hunk>)
    requires Grouping(es, spans) && Carries(es, spans, hunks)
    ensures forall h :: h in hunks ==> h.oldStart > 0 && h.newStart > 0
    ensures Patch(OldSide(es), AllToWire(hunks), 0, 0) == Some(NewSide(es))
  {
    CarriedStartsPositive(es, spans, hunks);
    var ws := AllToWire(hunks);
    PatchAll(es, spans, ws);
  }

  // ----- The reverse patch -----

  function FlipKind(k: EditKind): EditKind {
    match k
    case Context => Context
    case Removed => Added
    case Added => Removed
  }

  function Flip(es: seq<Edit>): (fs: seq<Edit>)
    ensures |fs| == |es| && forall i :: 0 <= i < |es| ==> fs[i] == Edit(FlipKind(es[i].kind), es[i].text)
  {
    seq(|es|, i requires 0 <= i < |es| => Edit(FlipKind(es[i].kind), es[i].text))
  }

  function FlipWire(w: WireHunk): WireHunk {
    WireHunk(w.newAt, w.newCount, w.oldAt, w.oldCount, Flip(w.edits))
  }

  function FlipAll(ws: seq<WireHunk>): (fs: seq<WireHunk>)
    ensures |fs| == |ws| && forall i :: 0 <= i < |ws| ==> fs[i] == FlipWire(ws[i])
  {
    seq(|ws|, i requires 0 <= i < |ws| => FlipWire(ws[i]))
  }

  lemma {:induction false} FlipSides(es: seq<Edit>)
    ensures OldSide(Flip(es)) == NewSide(es) && NewSide(Flip(es)) == OldSide(es)
  {
    if es != [] {
      FlipSides(DropLast(es));
      assert DropLast(Flip(es)) == Flip(DropLast(es));
    }
  }

  lemma FlipGrouping(es: seq<Edit>, spans: seq<Span>)
    requires Grouping(es, spans)
    ensures Grouping(Flip(es), spans)
  {
    assert forall i :: IsChange(es, i) <==> IsChange(Flip(es), i);
    forall k | 0 <= k < |spans| ensures SpanOk(Flip(es), spans[k]) {
      assert SpanOk(es, spans[k]);
      forall i | spans[k].first <= i < spans[k].last ensures ChangeSoon(Flip(es), i, spans[k].last) {
        assert ChangeSoon(es, i, spans[k].last);
      }
    }
    forall k | 0 < k < |spans| ensures Apart(Flip(es), spans, k) {
      assert Apart(es, spans, k);
    }
  }

  lemma {:induction false} FlipRange(es: seq<Edit>, lo: nat, hi: nat)
    requires lo <= hi <= |es|
    ensures OldRange(Flip(es), lo, hi) == NewRange(es, lo, hi)
    ensures NewRange(Flip(es), lo, hi) == OldRange(es, lo, hi)
    decreases hi
  {
    if lo < hi {
      FlipRange(es, lo, hi - 1);
    }
  }

  lemma FlipHunk(es: seq<Edit>, lo: nat, hi: nat)
    requires lo <= hi <= |es|
    ensures ToWire(HunkOf(Flip(es), lo, hi)) == FlipWire(ToWire(HunkOf(es, lo, hi)))
  {
    assert Flip(es)[lo..hi] == Flip(es[lo..hi]);
    FlipRange(es, 0, lo);
    FlipRange(es, lo, hi);
  }

  /** Main result: read backwards, the same hunks turn the new file into the old one. */
  lemma PatchReverses(es: seq<Edit>, spans: seq<Span>, hunks: seq<Hunk>)
    requires Grouping(es, spans) && Carries(es, spans, hunks)
    ensures forall h :: h in hunks ==> h.oldStart > 0 && h.newStart > 0
    ensures Patch(NewSide(es), FlipAll(AllToWire(hunks)), 0, 0) == Some(OldSide(es))
  {
    CarriedStartsPositive(es, spans, hunks);
    FlipGrouping(es, spans);
    var fs, ws := Flip(es), FlipAll(AllToWire(hunks));
    forall k | 0 <= k < |spans|
      ensures spans[k].lo <= spans[k].hi <= |fs| && ws[k] == ToWire(HunkOf(fs, spans[k].lo, spans[k].hi))
    {
      FlipHunk(es, spans[k].lo, spans[k].hi);
    }
    PatchAll(fs, spans, ws);
    FlipSides(es);
  }

  // ----- What the hunks show -----

  /** The removed and the added lines of all hunks. */
  function TotalCost(ws: seq<WireHunk>): nat {
    if ws == [] then 0 else Cost(ws[0].edits) + TotalCost(ws[1..])
  }

  /** How many lines of context a hunk opens with. */
  function Leading(es: seq<Edit>): nat {
    if es == [] || !es[0].kind.Context? then 0 else 1 + Leading(es[1..])
  }

  /** How many lines of context a hunk ends with. */
  function Trailing(es: seq<Edit>): nat {
    if es == [] || !Last(es).kind.Context? then 0 else 1 + Trailing(DropLast(es))
  }

  /**
   A hunk opens and ends with three lines of context, or with all that the
   files have there.
   */
  ghost predicate Padded(w: WireHunk, oldLines: nat, newLines: nat) {
    var o, n := LinesBefore(w.oldAt, w.oldCount), LinesBefore(w.newAt, w.newCount);
    && Leading(w.edits) <= 3 && (Leading(w.edits) < 3 ==> o == 0 && n == 0)
    && Trailing(w.edits) <= 3 && (Trailing(w.edits) < 3 ==> o + w.oldCount == oldLines && n + w.newCount == newLines)
  }

  /** From a change that is not the hunk's last, the next one is at most six lines on. */
  ghost predicate Dense(es: seq<Edit>) {
    && (exists i :: IsChange(es, i))
    && (forall i, j :: IsChange(es, i) && IsChange(es, j) && i < j ==> exists k :: i < k <= i + 6 && IsChange(es, k))
  }

  lemma {:induction false} LeadingIs(es: seq<Edit>, n: nat)
    requires AllContext(es, 0, n) && IsChange(es, n)
    ensures Leading(es) == n
  {
    if n > 0 {
      assert !IsChange(es, 0);
      forall i | 0 <= i < n - 1 ensures !IsChange(es[1..], i) {
        assert !IsChange(es, i + 1);
      }
      LeadingIs(es[1..], n - 1);
    }
  }

  lemma {:induction false} TrailingIs(es: seq<Edit>, n: nat)
    requires n < |es| && AllContext(es, |es| - n, |es|) && IsChange(es, |es| - n - 1)
    ensures Trailing(es) == n
  {
    if n > 0 {
      assert !IsChange(es, |es| - 1);
      forall i | |es| - n <= i < |es| - 1 ensures !IsChange(DropLast(es), i) {
        assert !IsChange(es, i);
      }
      TrailingIs(DropLast(es), n - 1);
    }
  }

  /** Only context lies between a span's padding and its changes. */
  lemma PaddingIsContext(es: seq<Edit>, spans: seq<Span>, k: nat)
    requires Grouping(es, spans) && k < |spans|
    ensures spans[k].lo <= spans[k].first <= spans[k].last < spans[k].hi <= |es|
    ensures AllContext(es, spans[k].lo, spans[k].first) && AllContext(es, spans[k].last + 1, spans[k].hi)
  {
    assert SpanOk(es, spans[k]);
    if k > 0 { assert Apart(es, spans, k); }
    if k + 1 < |spans| { assert Apart(es, spans, k + 1); }
  }

  lemma SliceChanges(es: seq<Edit>, lo: nat, hi: nat)
    requires lo <= hi <= |es|
    ensures forall i :: IsChange(es[lo..hi], i) <==> 0 <= i < hi - lo && IsChange(es, i + lo)
  {
  }

  lemma {:induction false} SpanPadding(es: seq<Edit>, s: Span)
    requires s.lo <= s.first <= s.last < s.hi <= |es| && SpanOk(es, s)
    requires AllContext(es, s.lo, s.first) && AllContext(es, s.last + 1, s.hi)
    ensures Leading(es[s.lo..s.hi]) == s.first - s.lo && Trailing(es[s.lo..s.hi]) == s.hi - s.last - 1
  {
    var w := es[s.lo..s.hi];
    SliceChanges(es, s.lo, s.hi);
    LeadingIs(w, s.first - s.lo);
    TrailingIs(w, s.hi - s.last - 1);
  }

  lemma {:induction false} HunkIsPadded(es: seq<Edit>, s: Span)
    requires s.lo <= s.first <= s.last < s.hi <= |es| && SpanOk(es, s)
    requires AllContext(es, s.lo, s.first) && AllContext(es, s.last + 1, s.hi)
    ensures Padded(ToWire(HunkOf(es, s.lo, s.hi)), |OldRange(es, 0, |es|)|, |NewRange(es, 0, |es|)|)
  {
    SpanPadding(es, s);
    SplitRange(es, 0, s.lo, s.hi);
  }

  lemma {:induction false} HunkIsDense(es: seq<Edit>, s: Span)
    requires s.lo <= s.first <= s.last < s.hi <= |es| && SpanOk(es, s)
    requires AllContext(es, s.lo, s.first) && AllContext(es, s.last + 1, s.hi)
    ensures Dense(es[s.lo..s.hi])
  {
    var w := es[s.lo..s.hi];
    SliceChanges(es, s.lo, s.hi);
    assert IsChange(w, s.first - s.lo);
    forall i, j | IsChange(w, i) && IsChange(w, j) && i < j ensures exists k :: i < k <= i + 6 && IsChange(w, k) {
      assert s.first <= i + s.lo && j + s.lo <= s.last;
      assert ChangeSoon(es, i + s.lo, s.last);
      var k :| i + s.lo < k <= i + s.lo + 2 * CONTEXT_LINES && k <= s.last && IsChange(es, k);
      assert IsChange(w, k - s.lo);
    }
  }

  lemma RangeRemovesFirst(es: seq<Edit>, lo: nat, hi: nat)
    requires RemovedFirst(es) && lo <= hi <= |es|
    ensures RemovedFirst(es[lo..hi])
  {
    var w := es[lo..hi];
    forall i, j | 0 <= i < j < |w| && w[i].kind.Added? && w[j].kind.Removed?
      ensures exists k :: i < k < j && w[k].kind.Context?
    {
      assert es[i + lo].kind.Added? && es[j + lo].kind.Removed?;
      var k :| i + lo < k < j + lo && es[k].kind.Context?;
      assert w[k - lo].kind.Context?;
    }
  }

  lemma {:induction false} CostOfConcat(es: seq<Edit>, fs: seq<Edit>)
    ensures Cost(es + fs) == Cost(es) + Cost(fs)
  {
    if fs == [] {
      assert es + fs == es;
    } else {
      assert DropLast(es + fs) == es + DropLast(fs);
      CostOfConcat(es, DropLast(fs));
    }
  }

  lemma {:induction false} ContextIsFree(es: seq<Edit>)
    requires AllContext(es, 0, |es|)
    ensures Cost(es) == 0
  {
    if es != [] {
      assert !IsChange(es, |es| - 1);
      forall i | 0 <= i < |es| - 1 ensures !IsChange(DropLast(es), i) {
        assert !IsChange(es, i);
      }
      ContextIsFree(DropLast(es));
    }
  }

  lemma GapIsFree(es: seq<Edit>, lo: nat, hi: nat)
    requires lo <= hi <= |es| && AllContext(es, lo, hi)
    ensures Cost(es[lo..hi]) == 0
  {
    SliceChanges(es, lo, hi);
    ContextIsFree(es[lo..hi]);
  }

  lemma {:induction false} CostOfThree(gap: seq<Edit>, body: seq<Edit>, after: seq<Edit>)
    requires Cost(gap) == 0
    ensures Cost(gap + body + after) == Cost(body) + Cost(after)
  {
    CostOfConcat(gap, body);
    CostOfConcat(gap + body, after);
  }

  lemma Around<T>(s: seq<T>, c: nat, lo: nat, hi: nat)
    requires c <= lo <= hi <= |s|
    ensures s[c..] == s[c..lo] + s[lo..hi] + s[hi..]
  {
  }

  lemma {:induction false} CostAround(es: seq<Edit>, c: nat, lo: nat, hi: nat)
    requires c <= lo <= hi <= |es| && AllContext(es, c, lo)
    ensures Cost(es[c..]) == Cost(es[lo..hi]) + Cost(es[hi..])
  {
    GapIsFree(es, c, lo);
    CostOfThree(es[c..lo], es[lo..hi], es[hi..]);
    Around(es, c, lo, hi);
  }

  /** The hunks leave out nothing but context. */
  lemma {:induction false} ChainCost(es: seq<Edit>, ws: seq<WireHunk>, c: nat)
    requires Chain(es, ws, c)
    ensures c <= |es| && TotalCost(ws) == Cost(es[c..])
    decreases |ws|
  {
    if ws == [] {
      assert es[c..|es|] == es[c..];
      GapIsFree(es, c, |es|);
    } else {
      var lo: nat, hi: nat :| Link(es, ws[0], c, lo, hi) && Chain(es, ws[1..], hi);
      ChainCost(es, ws[1..], hi);
      CostAround(es, c, lo, hi);
    }
  }

  /** What every hunk of a grouping shows. */
  ghost predicate Shown(w: WireHunk, oldLines: nat, newLines: nat) {
    Padded(w, oldLines, newLines) && Dense(w.edits) && RemovedFirst(w.edits)
  }

  lemma {:induction false} HunkShows(es: seq<Edit>, spans: seq<Span>, k: nat)
    requires Grouping(es, spans) && k < |spans| && RemovedFirst(es)
    ensures spans[k].lo <= spans[k].hi <= |es|
    ensures Shown(ToWire(HunkOf(es, spans[k].lo, spans[k].hi)), |OldSide(es)|, |NewSide(es)|)
  {
    assert SpanOk(es, spans[k]);
    WholeIsSide(es);
    PaddingIsContext(es, spans, k);
    HunkIsPadded(es, spans[k]);
    HunkIsDense(es, spans[k]);
    RangeRemovesFirst(es, spans[k].lo, spans[k].hi);
  }

  lemma {:induction false} WiresCost(es: seq<Edit>, spans: seq<Span>, ws: seq<WireHunk>)
    requires Grouping(es, spans) && WiresOf(es, spans, ws)
    ensures Chain(es, ws, 0) && TotalCost(ws) == Cost(es)
  {
    GroupingLinks(es, spans, ws);
    LinkedChains(es, spans, ws, 0);
    assert ws[0..] == ws && es[0..] == es;
    ChainCost(es, ws, 0);
  }

  /** Main result: the hunks hold every change, in runs with removals first, with three lines of context around. */
  lemma {:induction false} HunksShow(es: seq<Edit>, spans: seq<Span>, hunks: seq<Hunk>)
    requires Grouping(es, spans) && Carries(es, spans, hunks) && RemovedFirst(es)
    ensures forall h :: h in hunks ==> h.oldStart > 0 && h.newStart > 0
    ensures Chain(es, AllToWire(hunks), 0)
    ensures TotalCost(AllToWire(hunks)) == Cost(es)
    ensures forall w :: w in AllToWire(hunks) ==> Shown(w, |OldSide(es)|, |NewSide(es)|)
  {
    CarriedStartsPositive(es, spans, hunks);
    var ws := AllToWire(hunks);
    WiresCost(es, spans, ws);
    forall k | 0 <= k < |ws| ensures Shown(ws[k], |OldSide(es)|, |NewSide(es)|) {
      HunkShows(es, spans, k);
    }
  }
}
