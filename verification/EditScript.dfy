/**
 Edit scripts between two sequences of lines, and the longest common
 subsequence that measures them. Everything here is specification: the loops
 that compute a script live in `LineDiff`.
 */
module EditScript {

  type Line = string

  datatype EditKind = Context | Removed | Added

  datatype Edit = Edit(kind: EditKind, text: Line)

  function DropLast<T>(s: seq<T>): seq<T>
    requires s != []
  {
    s[..|s| - 1]
  }

  function Last<T>(s: seq<T>): T
    requires s != []
  {
    s[|s| - 1]
  }

  // ----- What a script says about the two files -----

  /** The lines of the old file: kept or removed. */
  function OldSide(es: seq<Edit>): seq<Line> {
    if es == [] then []
    else OldSide(DropLast(es)) + (if Last(es).kind.Added? then [] else [Last(es).text])
  }

  /** The lines of the new file: kept or added. */
  function NewSide(es: seq<Edit>): seq<Line> {
    if es == [] then []
    else NewSide(DropLast(es)) + (if Last(es).kind.Removed? then [] else [Last(es).text])
  }

  function Kept(es: seq<Edit>): nat {
    if es == [] then 0
    else Kept(DropLast(es)) + (if Last(es).kind.Context? then 1 else 0)
  }

  /** Removed plus added lines: the cost of a script. */
  function Cost(es: seq<Edit>): nat {
    if es == [] then 0
    else Cost(DropLast(es)) + (if Last(es).kind.Context? then 0 else 1)
  }

  ghost predicate Transforms(es: seq<Edit>, a: seq<Line>, b: seq<Line>) {
    OldSide(es) == a && NewSide(es) == b
  }

  lemma Assoc<T>(a: seq<T>, b: seq<T>, c: seq<T>)
    ensures (a + b) + c == a + (b + c)
  {
  }

  lemma {:induction false} OldSideOfConcat(es: seq<Edit>, fs: seq<Edit>)
    ensures OldSide(es + fs) == OldSide(es) + OldSide(fs)
  {
    if fs == [] {
      assert es + fs == es;
    } else {
      assert DropLast(es + fs) == es + DropLast(fs);
      OldSideOfConcat(es, DropLast(fs));
      Assoc(OldSide(es), OldSide(DropLast(fs)), if Last(fs).kind.Added? then [] else [Last(fs).text]);
    }
  }

  lemma {:induction false} NewSideOfConcat(es: seq<Edit>, fs: seq<Edit>)
    ensures NewSide(es + fs) == NewSide(es) + NewSide(fs)
  {
    if fs == [] {
      assert es + fs == es;
    } else {
      assert DropLast(es + fs) == es + DropLast(fs);
      NewSideOfConcat(es, DropLast(fs));
      Assoc(NewSide(es), NewSide(DropLast(fs)), if Last(fs).kind.Removed? then [] else [Last(fs).text]);
    }
  }

  lemma SidesOfConcat(es: seq<Edit>, fs: seq<Edit>)
    ensures OldSide(es + fs) == OldSide(es) + OldSide(fs)
    ensures NewSide(es + fs) == NewSide(es) + NewSide(fs)
  {
    OldSideOfConcat(es, fs);
    NewSideOfConcat(es, fs);
  }

  /** A script that keeps more lines costs less, for fixed files. */
  lemma {:induction false} CostFromKept(es: seq<Edit>)
    ensures Cost(es) == |OldSide(es)| + |NewSide(es)| - 2 * Kept(es)
  {
    if es != [] {
      CostFromKept(DropLast(es));
    }
  }

  // ----- Common subsequences -----

  /** `at` places the elements of `c`, in order, at positions of `a`. */
  ghost predicate Embeds(c: seq<Line>, a: seq<Line>, at: seq<nat>) {
    && |at| == |c|
    && (forall k :: 0 <= k < |c| ==> at[k] < |a| && a[at[k]] == c[k])
    && (forall j, k :: 0 <= j < k < |c| ==> at[j] < at[k])
  }

  ghost predicate CommonSubsequence(c: seq<Line>, a: seq<Line>, b: seq<Line>) {
    && (exists at :: Embeds(c, a, at))
    && (exists at :: Embeds(c, b, at))
  }

  /** `n` is the length of a longest common subsequence of `a` and `b`. */
  ghost predicate IsLongest(n: nat, a: seq<Line>, b: seq<Line>) {
    && (exists c :: CommonSubsequence(c, a, b) && |c| == n)
    && (forall c :: CommonSubsequence(c, a, b) ==> |c| <= n)
  }

  /** The Wagner-Fischer recurrence. */
  function Lcs(a: seq<Line>, b: seq<Line>): nat
    decreases |a| + |b|
  {
    if a == [] || b == [] then 0
    else if Last(a) == Last(b) then Lcs(DropLast(a), DropLast(b)) + 1
    else Max(Lcs(DropLast(a), b), Lcs(a, DropLast(b)))
  }

  function Max(x: nat, y: nat): nat {
    if x < y then y else x
  }

  /** Dropping one line changes the recurrence by at most one. */
  lemma {:induction false} LcsStep(a: seq<Line>, b: seq<Line>)
    ensures a != [] ==> Lcs(DropLast(a), b) <= Lcs(a, b) <= Lcs(DropLast(a), b) + 1
    ensures b != [] ==> Lcs(a, DropLast(b)) <= Lcs(a, b) <= Lcs(a, DropLast(b)) + 1
    decreases |a| + |b|
  {
    if a != [] && b != [] {
      LcsStep(DropLast(a), b);
      LcsStep(a, DropLast(b));
    }
  }

  lemma {:induction false} LcsBound(a: seq<Line>, b: seq<Line>)
    ensures Lcs(a, b) <= |a| && Lcs(a, b) <= |b|
    decreases |a| + |b|
  {
    if a != [] && b != [] {
      if Last(a) == Last(b) {
        LcsBound(DropLast(a), DropLast(b));
      } else {
        LcsBound(DropLast(a), b);
        LcsBound(a, DropLast(b));
      }
    }
  }

  lemma EmbedsShorter(c: seq<Line>, a: seq<Line>, at: seq<nat>)
    requires Embeds(c, a, at) && a != []
    ensures c != [] && Last(at) == |a| - 1 ==> Embeds(DropLast(c), DropLast(a), DropLast(at))
    ensures c == [] || Last(at) != |a| - 1 ==> Embeds(c, DropLast(a), at)
  {
  }

  lemma EmbedsLonger(c: seq<Line>, a: seq<Line>, at: seq<nat>, x: Line)
    requires Embeds(c, a, at)
    ensures Embeds(c, a + [x], at)
    ensures Embeds(c + [x], a + [x], at + [|a|])
  {
  }

  lemma {:induction false} LcsIsUpperBound(c: seq<Line>, a: seq<Line>, at: seq<nat>, b: seq<Line>, bt: seq<nat>)
    requires Embeds(c, a, at) && Embeds(c, b, bt)
    ensures |c| <= Lcs(a, b)
    decreases |a| + |b|
  {
    if c != [] {
      assert at[|c| - 1] < |a| && bt[|c| - 1] < |b|;
      EmbedsShorter(c, a, at);
      EmbedsShorter(c, b, bt);
      LcsStep(a, b);
      if Last(at) != |a| - 1 {
        LcsIsUpperBound(c, DropLast(a), at, b, bt);
      } else if Last(bt) != |b| - 1 {
        LcsIsUpperBound(c, a, at, DropLast(b), bt);
      } else {
        LcsIsUpperBound(DropLast(c), DropLast(a), DropLast(at), DropLast(b), DropLast(bt));
      }
    }
  }

  lemma {:induction false} LcsIsAttained(a: seq<Line>, b: seq<Line>)
    returns (c: seq<Line>, at: seq<nat>, bt: seq<nat>)
    ensures Embeds(c, a, at) && Embeds(c, b, bt) && |c| == Lcs(a, b)
    decreases |a| + |b|
  {
    if a == [] || b == [] {
      c, at, bt := [], [], [];
    } else if Last(a) == Last(b) {
      c, at, bt := LcsIsAttained(DropLast(a), DropLast(b));
      EmbedsLonger(c, DropLast(a), at, Last(a));
      EmbedsLonger(c, DropLast(b), bt, Last(b));
      assert a == DropLast(a) + [Last(a)] && b == DropLast(b) + [Last(b)];
      c, at, bt := c + [Last(a)], at + [|a| - 1], bt + [|b| - 1];
    } else if Lcs(DropLast(a), b) < Lcs(a, DropLast(b)) {
      c, at, bt := LcsIsAttained(a, DropLast(b));
      EmbedsLonger(c, DropLast(b), bt, Last(b));
      assert b == DropLast(b) + [Last(b)];
    } else {
      c, at, bt := LcsIsAttained(DropLast(a), b);
      EmbedsLonger(c, DropLast(a), at, Last(a));
      assert a == DropLast(a) + [Last(a)];
    }
  }

  /** The recurrence computes the true maximum. */
  lemma LcsIsLongest(a: seq<Line>, b: seq<Line>)
    ensures IsLongest(Lcs(a, b), a, b)
  {
    var c, at, bt := LcsIsAttained(a, b);
    assert CommonSubsequence(c, a, b);
    forall d | CommonSubsequence(d, a, b)
      ensures |d| <= Lcs(a, b)
    {
      var dt :| Embeds(d, a, dt);
      var et :| Embeds(d, b, et);
      LcsIsUpperBound(d, a, dt, b, et);
    }
  }

  /** No script keeps more lines than the longest common subsequence. */
  lemma {:induction false} KeptIsBounded(es: seq<Edit>)
    ensures Kept(es) <= Lcs(OldSide(es), NewSide(es))
  {
    if es != [] {
      KeptIsBounded(DropLast(es));
      var a, b := OldSide(es), NewSide(es);
      LcsStep(a, b);
      if Last(es).kind.Context? {
        assert DropLast(a) == OldSide(DropLast(es)) && DropLast(b) == NewSide(DropLast(es));
      } else if Last(es).kind.Removed? {
        assert DropLast(a) == OldSide(DropLast(es)) && b == NewSide(DropLast(es));
      } else {
        assert a == OldSide(DropLast(es)) && DropLast(b) == NewSide(DropLast(es));
      }
    }
  }

  // ----- The script the traceback produces -----

  /**
   The traceback's choice at every prefix pair, read forwards: an equal pair is
   kept; otherwise the last old line goes only when that is strictly better,
   and the last new line is added on a tie.
   */
  function Script(a: seq<Line>, b: seq<Line>): seq<Edit>
    decreases |a| + |b|
  {
    if a == [] && b == [] then []
    else if b == [] then Script(DropLast(a), b) + [Edit(Removed, Last(a))]
    else if a == [] then Script(a, DropLast(b)) + [Edit(Added, Last(b))]
    else if Last(a) == Last(b) then Script(DropLast(a), DropLast(b)) + [Edit(Context, Last(a))]
    else if Lcs(DropLast(a), b) > Lcs(a, DropLast(b)) then Script(DropLast(a), b) + [Edit(Removed, Last(a))]
    else Script(a, DropLast(b)) + [Edit(Added, Last(b))]
  }

  lemma AppendEdit(es: seq<Edit>, e: Edit)
    ensures OldSide(es + [e]) == OldSide(es) + (if e.kind.Added? then [] else [e.text])
    ensures NewSide(es + [e]) == NewSide(es) + (if e.kind.Removed? then [] else [e.text])
    ensures Kept(es + [e]) == Kept(es) + (if e.kind.Context? then 1 else 0)
  {
    assert DropLast(es + [e]) == es;
  }

  /** The old line goes at this pair of prefixes. */
  predicate TraceRemoves(a: seq<Line>, b: seq<Line>) {
    a != [] && (b == [] || (Last(a) != Last(b) && Lcs(DropLast(a), b) > Lcs(a, DropLast(b))))
  }

  predicate TraceAdds(a: seq<Line>, b: seq<Line>) {
    b != [] && (a == [] || (Last(a) != Last(b) && Lcs(DropLast(a), b) <= Lcs(a, DropLast(b))))
  }

  /** One step of the traceback, whichever branch it takes. */
  lemma ScriptStep(a: seq<Line>, b: seq<Line>)
    ensures TraceRemoves(a, b) ==>
      Script(a, b) == Script(DropLast(a), b) + [Edit(Removed, Last(a))] && Lcs(a, b) == Lcs(DropLast(a), b)
    ensures TraceAdds(a, b) ==>
      Script(a, b) == Script(a, DropLast(b)) + [Edit(Added, Last(b))] && Lcs(a, b) == Lcs(a, DropLast(b))
    ensures !TraceRemoves(a, b) && !TraceAdds(a, b) && a != [] ==>
      && b != [] && Last(a) == Last(b)
      && Script(a, b) == Script(DropLast(a), DropLast(b)) + [Edit(Context, Last(a))]
      && Lcs(a, b) == Lcs(DropLast(a), DropLast(b)) + 1
    ensures !TraceRemoves(a, b) && !TraceAdds(a, b) && a == [] ==> b == [] && Script(a, b) == []
  {
  }

  lemma SplitLast<T>(s: seq<T>)
    requires s != []
    ensures s == DropLast(s) + [Last(s)]
  {
  }

  /** The script turns the old file into the new one and keeps a longest common subsequence. */
  lemma {:induction false} ScriptTransforms(a: seq<Line>, b: seq<Line>)
    ensures Transforms(Script(a, b), a, b)
    ensures Kept(Script(a, b)) == Lcs(a, b)
    decreases |a| + |b|
  {
    ScriptStep(a, b);
    if TraceRemoves(a, b) {
      SplitLast(a);
      ScriptTransforms(DropLast(a), b);
      AppendEdit(Script(DropLast(a), b), Edit(Removed, Last(a)));
    } else if TraceAdds(a, b) {
      SplitLast(b);
      ScriptTransforms(a, DropLast(b));
      AppendEdit(Script(a, DropLast(b)), Edit(Added, Last(b)));
    } else if a != [] {
      SplitLast(a);
      SplitLast(b);
      ScriptTransforms(DropLast(a), DropLast(b));
      AppendEdit(Script(DropLast(a), DropLast(b)), Edit(Context, Last(a)));
    }
  }

  /** Main result: no script between the same two files is cheaper. */
  lemma ScriptIsOptimal(a: seq<Line>, b: seq<Line>, es: seq<Edit>)
    requires Transforms(es, a, b)
    ensures Cost(Script(a, b)) <= Cost(es)
    ensures Kept(es) <= Kept(Script(a, b))
  {
    ScriptTransforms(a, b);
    KeptIsBounded(es);
    CostFromKept(es);
    CostFromKept(Script(a, b));
  }

  // ----- Removed before added -----

  ghost predicate RemovedFirst(es: seq<Edit>) {
    forall i, j :: 0 <= i < j < |es| && es[i].kind.Added? && es[j].kind.Removed?
      ==> exists k :: i < k < j && es[k].kind.Context?
  }

  ghost predicate NoAddThenRemove(es: seq<Edit>) {
    forall i :: 0 < i < |es| ==> !(es[i - 1].kind.Added? && es[i].kind.Removed?)
  }

  /** Adjacent pairs are enough: a run switches from removing to adding at most once. */
  lemma {:induction false} AdjacentSuffices(es: seq<Edit>, i: nat, j: nat)
    requires NoAddThenRemove(es)
    requires i < j < |es| && es[i].kind.Added? && es[j].kind.Removed?
    ensures exists k :: i < k < j && es[k].kind.Context?
    decreases j - i
  {
    assert !(es[(i + 1) - 1].kind.Added? && es[i + 1].kind.Removed?);
    if es[i + 1].kind.Added? {
      AdjacentSuffices(es, i + 1, j);
    }
  }

  /**
   When the traceback removes a line it never adds one just before it: adding
   there would mean the other branch was at least as good.
   */
  lemma {:induction false} ScriptNeverAddsThenRemoves(a: seq<Line>, b: seq<Line>)
    ensures NoAddThenRemove(Script(a, b))
    decreases |a| + |b|
  {
    if TraceRemoves(a, b) {
      ScriptNeverAddsThenRemoves(DropLast(a), b);
      if b != [] {
        LcsStep(a, DropLast(b));
        assert !TraceAdds(DropLast(a), b);
      }
    } else if TraceAdds(a, b) {
      ScriptNeverAddsThenRemoves(a, DropLast(b));
    } else if a != [] {
      ScriptNeverAddsThenRemoves(DropLast(a), DropLast(b));
    }
  }

  /** Main result: within a run of changes every removal precedes every addition. */
  lemma ScriptRemovesFirst(a: seq<Line>, b: seq<Line>)
    ensures RemovedFirst(Script(a, b))
  {
    ScriptNeverAddsThenRemoves(a, b);
    var es := Script(a, b);
    forall i, j | 0 <= i < j < |es| && es[i].kind.Added? && es[j].kind.Removed?
      ensures exists k :: i < k < j && es[k].kind.Context?
    {
      AdjacentSuffices(es, i, j);
    }
  }

  // ----- Which of the cheapest scripts -----

  /** Read from the end, keeping a line comes before adding one, and adding before removing. */
  function Rank(k: EditKind): nat {
    match k
    case Context => 0
    case Added => 1
    case Removed => 2
  }

  /** The two scripts end alike; at the last place where they differ, `es` has the earlier kind. */
  ghost predicate Preferred(es: seq<Edit>, fs: seq<Edit>)
    decreases |es|
  {
    && es != [] && fs != []
    && (Rank(Last(es).kind) < Rank(Last(fs).kind) || (Last(es) == Last(fs) && Preferred(DropLast(es), DropLast(fs))))
  }

  /** The last edit takes its line off one file or both, and its cost off the whole. */
  lemma LastEdit(es: seq<Edit>, a: seq<Line>, b: seq<Line>)
    requires Transforms(es, a, b) && es != []
    ensures Cost(es) == Cost(DropLast(es)) + (if Last(es).kind.Context? then 0 else 1)
    ensures Last(es).kind.Context? ==>
      a != [] && b != [] && Last(a) == Last(b) == Last(es).text && Transforms(DropLast(es), DropLast(a), DropLast(b))
    ensures Last(es).kind.Removed? ==> a != [] && Last(a) == Last(es).text && Transforms(DropLast(es), DropLast(a), b)
    ensures Last(es).kind.Added? ==> b != [] && Last(b) == Last(es).text && Transforms(DropLast(es), a, DropLast(b))
  {
  }

  /** Main result: of the cheapest scripts between two files, the traceback's is the preferred one. */
  lemma {:induction false} ScriptIsPreferred(a: seq<Line>, b: seq<Line>, es: seq<Edit>)
    requires Transforms(es, a, b) && Cost(es) <= Cost(Script(a, b)) && es != Script(a, b)
    ensures Preferred(Script(a, b), es)
    decreases |a| + |b|
  {
    var best := Script(a, b);
    ScriptTransforms(a, b);
    ScriptStep(a, b);
    assert es != [] && best != [];
    LastEdit(es, a, b);
    LastEdit(best, a, b);
    SplitLast(es);
    SplitLast(best);
    if Last(es).kind == Last(best).kind {
      assert Last(es) == Last(best) && DropLast(es) != DropLast(best);
      if TraceRemoves(a, b) {
        ScriptIsPreferred(DropLast(a), b, DropLast(es));
      } else if TraceAdds(a, b) {
        ScriptIsPreferred(a, DropLast(b), DropLast(es));
      } else {
        ScriptIsPreferred(DropLast(a), DropLast(b), DropLast(es));
      }
    } else if Last(es).kind.Added? {
      KeptIsBounded(DropLast(es));
      CostFromKept(es);
      CostFromKept(best);
    }
  }
}
