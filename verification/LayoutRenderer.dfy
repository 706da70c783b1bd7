/**
 The formatter's layout renderer (lib/Fmt/LayoutRenderer.cpp): the fits check
 that simulates a flat layout under a budget, and the emitter that must agree
 with it. A null document pointer is `Null`.
 */
module LayoutRenderer {

  datatype Doc =
    | Null
    | Text(text: string)
    | Line(hard: bool)
    | Nest(step: int, inner: Doc)
    | Group(inner: Doc)
    | Concat(items: Docs)
    | Align(inner: Doc)
    | Comment(text: string)

  datatype Docs = Nil | Cons(first: Doc, more: Docs)

  /** `indentSpaces` below zero asks for tabs. */
  datatype Config = Config(maxWidth: int, indentSpaces: int)

  // ----- The fits check -----

  /** Flat width under a budget, or -1 when the document certainly does not fit. */
  function FlatWidth(d: Doc, budget: int): int
    decreases d
  {
    match d
    case Null => 0
    case Text(t) => |t|
    case Line(hard) => if hard then -1 else 1
    case Nest(_, x) => FlatWidth(x, budget)
    case Group(x) => FlatWidth(x, budget)
    case Concat(items) => SumWidths(items, budget, 0)
    case Align(x) => FlatWidth(x, budget)
    case Comment(t) => |t|
  }

  function SumWidths(items: Docs, budget: int, total: int): int
    decreases items
  {
    match items
    case Nil => total
    case Cons(d, more) =>
      if d.Null? then SumWidths(more, budget, total) else
      var w := FlatWidth(d, budget - total);
      if w < 0 || total + w > budget then -1 else SumWidths(more, budget, total + w)
  }

  predicate Fits(d: Doc, budget: int) {
    var w := FlatWidth(d, budget);
    w >= 0 && w <= budget
  }

  // ----- The simple view of a flat layout -----

  predicate HasHardline(d: Doc)
    decreases d
  {
    match d
    case Null => false
    case Text(_) => false
    case Line(hard) => hard
    case Nest(_, x) => HasHardline(x)
    case Group(x) => HasHardline(x)
    case Concat(items) => AnyHardline(items)
    case Align(x) => HasHardline(x)
    case Comment(_) => false
  }

  predicate AnyHardline(items: Docs)
    decreases items
  {
    match items
    case Nil => false
    case Cons(d, more) => HasHardline(d) || AnyHardline(more)
  }

  /** The document on one line: every soft line a space, every group flat. */
  function FlatText(d: Doc): string
    decreases d
  {
    match d
    case Null => ""
    case Text(t) => t
    case Line(_) => " "
    case Nest(_, x) => FlatText(x)
    case Group(x) => FlatText(x)
    case Concat(items) => FlatTexts(items)
    case Align(x) => FlatText(x)
    case Comment(t) => t
  }

  function FlatTexts(items: Docs): string
    decreases items
  {
    match items
    case Nil => ""
    case Cons(d, more) => FlatText(d) + FlatTexts(more)
  }

  /** What the budgeted simulation computes. */
  lemma {:induction false} WidthIsLength(d: Doc, budget: int)
    ensures FlatWidth(d, budget) == -1 || FlatWidth(d, budget) == |FlatText(d)|
    ensures HasHardline(d) ==> FlatWidth(d, budget) == -1
    ensures !HasHardline(d) && |FlatText(d)| <= budget ==> FlatWidth(d, budget) == |FlatText(d)|
    decreases d
  {
    match d
    case Nest(_, x) => WidthIsLength(x, budget);
    case Group(x) => WidthIsLength(x, budget);
    case Align(x) => WidthIsLength(x, budget);
    case Concat(items) => SumIsLength(items, budget, 0);
    case _ =>
  }

  lemma {:induction false} SumIsLength(items: Docs, budget: int, total: int)
    requires total >= 0
    ensures
      var w := SumWidths(items, budget, total);
      w == -1 || w == total + |FlatTexts(items)|
    ensures AnyHardline(items) ==> SumWidths(items, budget, total) == -1
    ensures !AnyHardline(items) && total + |FlatTexts(items)| <= budget ==>
      SumWidths(items, budget, total) == total + |FlatTexts(items)|
    decreases items
  {
    if items.Cons? {
      if items.first.Null? {
        assert !HasHardline(items.first) && FlatText(items.first) == "";
        SumIsLength(items.more, budget, total);
      } else {
        WidthIsLength(items.first, budget - total);
        var w := FlatWidth(items.first, budget - total);
        if w >= 0 && total + w <= budget {
          SumIsLength(items.more, budget, total + w);
        }
      }
    }
  }

  /** Main result: the check accepts exactly the documents without a hardline whose flat text is within the budget. */
  lemma {:induction false} FitsIff(d: Doc, budget: int)
    ensures Fits(d, budget) <==> !HasHardline(d) && |FlatText(d)| <= budget
  {
    WidthIsLength(d, budget);
  }

  // ----- The emitter -----

  function Spaces(n: int, c: char): (s: string)
    ensures |s| == (if n > 0 then n else 0)
    ensures forall i :: 0 <= i < |s| ==> s[i] == c
    decreases n
  {
    if n <= 0 then "" else Spaces(n - 1, c) + [c]
  }

  function Indentation(indent: int, cfg: Config): string {
    Spaces(indent, if cfg.indentSpaces < 0 then '\t' else ' ')
  }

  datatype Rendered = Rendered(text: string, column: int)

  /** The text appended for `d` and the column after it. */
  function Render(d: Doc, cfg: Config, indent: int, column: int, flat: bool): Rendered
    decreases d
  {
    match d
    case Null => Rendered("", column)
    case Text(t) => Rendered(t, column + |t|)
    case Line(hard) =>
      if flat && !hard then Rendered(" ", column + 1)
      else Rendered("\n" + Indentation(indent, cfg), indent)
    case Nest(step, x) => Render(x, cfg, indent + step, column, flat)
    case Group(x) => Render(x, cfg, indent, column, Fits(x, cfg.maxWidth - column))
    case Concat(items) => RenderAll(items, cfg, indent, column, flat)
    case Align(x) => Render(x, cfg, column, column, flat)
    case Comment(t) => Rendered(t, column + |t|)
  }

  function RenderAll(items: Docs, cfg: Config, indent: int, column: int, flat: bool): Rendered
    decreases items
  {
    match items
    case Nil => Rendered("", column)
    case Cons(d, more) =>
      var r := Render(d, cfg, indent, column, flat);
      var rest := RenderAll(more, cfg, indent, r.column, flat);
      Rendered(r.text + rest.text, rest.column)
  }

  // ----- The check and the emitter agree -----

  lemma {:induction false} FlatAgrees(d: Doc, cfg: Config, indent: int, column: int)
    requires !HasHardline(d) && column + |FlatText(d)| <= cfg.maxWidth
    ensures Render(d, cfg, indent, column, true) == Rendered(FlatText(d), column + |FlatText(d)|)
    decreases d
  {
    match d
    case Nest(step, x) => FlatAgrees(x, cfg, indent + step, column);
    case Group(x) =>
      FitsIff(x, cfg.maxWidth - column);
      FlatAgrees(x, cfg, indent, column);
    case Concat(items) => FlatAgreesAll(items, cfg, indent, column);
    case Align(x) => FlatAgrees(x, cfg, column, column);
    case _ =>
  }

  lemma {:induction false} FlatAgreesAll(items: Docs, cfg: Config, indent: int, column: int)
    requires !AnyHardline(items) && column + |FlatTexts(items)| <= cfg.maxWidth
    ensures RenderAll(items, cfg, indent, column, true) == Rendered(FlatTexts(items), column + |FlatTexts(items)|)
    decreases items
  {
    if items.Cons? {
      FlatAgrees(items.first, cfg, indent, column);
      FlatAgreesAll(items.more, cfg, indent, column + |FlatText(items.first)|);
    }
  }

  /**
   Main result: a group the check accepts is emitted as its flat text, every
   group inside it flat, and ends within the width; a group it refuses is
   emitted broken.
   */
  lemma {:induction false} GroupLayout(x: Doc, cfg: Config, indent: int, column: int, flat: bool)
    ensures
      var r := Render(Group(x), cfg, indent, column, flat);
      if !HasHardline(x) && column + |FlatText(x)| <= cfg.maxWidth
      then r == Rendered(FlatText(x), column + |FlatText(x)|) && r.column <= cfg.maxWidth
      else r == Render(x, cfg, indent, column, false)
  {
    FitsIff(x, cfg.maxWidth - column);
    if !HasHardline(x) && column + |FlatText(x)| <= cfg.maxWidth {
      FlatAgrees(x, cfg, indent, column);
    }
  }

  predicate NewlineFree(d: Doc)
    decreases d
  {
    match d
    case Text(t) => '\n' !in t
    case Nest(_, x) => NewlineFree(x)
    case Group(x) => NewlineFree(x)
    case Concat(items) => AllNewlineFree(items)
    case Align(x) => NewlineFree(x)
    case Comment(t) => '\n' !in t
    case _ => true
  }

  predicate AllNewlineFree(items: Docs)
    decreases items
  {
    match items
    case Nil => true
    case Cons(d, more) => NewlineFree(d) && AllNewlineFree(more)
  }

  lemma {:induction false} FlatIsOneLine(d: Doc)
    requires NewlineFree(d)
    ensures '\n' !in FlatText(d)
    decreases d
  {
    match d
    case Nest(_, x) => FlatIsOneLine(x);
    case Group(x) => FlatIsOneLine(x);
    case Concat(items) => FlatAreOneLine(items);
    case Align(x) => FlatIsOneLine(x);
    case _ =>
  }

  lemma {:induction false} FlatAreOneLine(items: Docs)
    requires AllNewlineFree(items)
    ensures '\n' !in FlatTexts(items)
    decreases items
  {
    if items.Cons? {
      FlatIsOneLine(items.first);
      FlatAreOneLine(items.more);
    }
  }

  // ----- Spaces or tabs -----

  /** No text holds `c`, and no soft line is written as it. */
  predicate Without(d: Doc, c: char)
    decreases d
  {
    match d
    case Text(t) => c !in t
    case Line(hard) => hard || c != ' '
    case Nest(_, x) => Without(x, c)
    case Group(x) => Without(x, c)
    case Concat(items) => AllWithout(items, c)
    case Align(x) => Without(x, c)
    case Comment(t) => c !in t
    case _ => true
  }

  predicate AllWithout(items: Docs, c: char)
    decreases items
  {
    match items
    case Nil => true
    case Cons(d, more) => Without(d, c) && AllWithout(more, c)
  }

  /** A broken line is a newline and then the indent: spaces if a number of spaces is configured, tabs otherwise. */
  lemma {:induction false} BreakIsIndented(hard: bool, cfg: Config, indent: int, column: int, flat: bool)
    requires hard || !flat
    ensures
      var t := Render(Line(hard), cfg, indent, column, flat).text;
      && |t| == 1 + (if indent > 0 then indent else 0) && t[0] == '\n'
      && forall i :: 1 <= i < |t| ==> t[i] == if cfg.indentSpaces >= 0 then ' ' else '\t'
  {
  }

  /** Main result: configured for spaces, no indent brings in a tab; configured for tabs, none brings in a space. */
  lemma {:induction false} OneKindOfBlank(d: Doc, cfg: Config, indent: int, column: int, flat: bool, c: char)
    requires c == (if cfg.indentSpaces >= 0 then '\t' else ' ') && Without(d, c)
    ensures c !in Render(d, cfg, indent, column, flat).text
    decreases d
  {
    match d
    case Nest(step, x) => OneKindOfBlank(x, cfg, indent + step, column, flat, c);
    case Group(x) => OneKindOfBlank(x, cfg, indent, column, Fits(x, cfg.maxWidth - column), c);
    case Concat(items) => OneKindOfBlanks(items, cfg, indent, column, flat, c);
    case Align(x) => OneKindOfBlank(x, cfg, column, column, flat, c);
    case _ =>
  }

  lemma {:induction false} OneKindOfBlanks(items: Docs, cfg: Config, indent: int, column: int, flat: bool, c: char)
    requires c == (if cfg.indentSpaces >= 0 then '\t' else ' ') && AllWithout(items, c)
    ensures c !in RenderAll(items, cfg, indent, column, flat).text
    decreases items
  {
    if items.Cons? {
      OneKindOfBlank(items.first, cfg, indent, column, flat, c);
      OneKindOfBlanks(items.more, cfg, indent, Render(items.first, cfg, indent, column, flat).column, flat, c);
    }
  }

  // ----- The column is the length of the last line -----

  function LastLine(s: string): nat {
    if s == "" || s[|s| - 1] == '\n' then 0 else 1 + LastLine(s[..|s| - 1])
  }

  lemma {:induction false} LastLineOfText(s: string, t: string)
    requires '\n' !in t
    ensures LastLine(s + t) == LastLine(s) + |t|
  {
    if t == "" {
      assert s + t == s;
    } else {
      var t' := t[..|t| - 1];
      assert (s + t)[..|s + t| - 1] == s + t';
      LastLineOfText(s, t');
    }
  }

  lemma LastLineOfBreak(s: string, t: string)
    requires '\n' !in t
    ensures LastLine(s + ("\n" + t)) == |t|
  {
    assert s + ("\n" + t) == (s + "\n") + t;
    LastLineOfText(s + "\n", t);
  }

  predicate NestsForward(d: Doc)
    decreases d
  {
    match d
    case Nest(step, x) => step >= 0 && NestsForward(x)
    case Group(x) => NestsForward(x)
    case Concat(items) => AllNestForward(items)
    case Align(x) => NestsForward(x)
    case _ => true
  }

  predicate AllNestForward(items: Docs)
    decreases items
  {
    match items
    case Nil => true
    case Cons(d, more) => NestsForward(d) && AllNestForward(more)
  }

  /** Main result: after any output, the tracked column is the length of the last output line. */
  lemma {:induction false} ColumnIsTrue(d: Doc, cfg: Config, indent: int, out: string, flat: bool)
    requires NewlineFree(d) && NestsForward(d) && indent >= 0
    ensures
      var r := Render(d, cfg, indent, LastLine(out), flat);
      r.column == LastLine(out + r.text)
    decreases d
  {
    var column := LastLine(out);
    match d
    case Null => assert out + "" == out;
    case Text(t) => LastLineOfText(out, t);
    case Comment(t) => LastLineOfText(out, t);
    case Line(hard) =>
      LastLineOfText(out, " ");
      LastLineOfBreak(out, Indentation(indent, cfg));
    case Nest(step, x) => ColumnIsTrue(x, cfg, indent + step, out, flat);
    case Group(x) => ColumnIsTrue(x, cfg, indent, out, Fits(x, cfg.maxWidth - column));
    case Concat(items) => ColumnIsTrueAll(items, cfg, indent, out, flat);
    case Align(x) => ColumnIsTrue(x, cfg, column, out, flat);
  }

  lemma {:induction false} ColumnIsTrueAll(items: Docs, cfg: Config, indent: int, out: string, flat: bool)
    requires AllNewlineFree(items) && AllNestForward(items) && indent >= 0
    ensures
      var r := RenderAll(items, cfg, indent, LastLine(out), flat);
      r.column == LastLine(out + r.text)
    decreases items
  {
    if items.Nil? {
      assert out + "" == out;
    } else {
      var r := Render(items.first, cfg, indent, LastLine(out), flat);
      ColumnIsTrue(items.first, cfg, indent, out, flat);
      ColumnIsTrueAll(items.more, cfg, indent, out + r.text, flat);
      var rest := RenderAll(items.more, cfg, indent, r.column, flat);
      assert out + (r.text + rest.text) == (out + r.text) + rest.text;
    }
  }

  // ----- The output is a layout of the document -----

  /**
   The layouts a document denotes: a group is laid out flat, which needs it
   free of hardlines, or broken; inside a flat group everything is flat.
   */
  ghost predicate IsLayout(d: Doc, cfg: Config, indent: int, column: int, flat: bool, r: Rendered)
    decreases d
  {
    match d
    case Null => r == Rendered("", column)
    case Text(t) => r == Rendered(t, column + |t|)
    case Comment(t) => r == Rendered(t, column + |t|)
    case Line(hard) =>
      if flat then !hard && r == Rendered(" ", column + 1)
      else r == Rendered("\n" + Indentation(indent, cfg), indent)
    case Nest(step, x) => IsLayout(x, cfg, indent + step, column, flat, r)
    case Align(x) => IsLayout(x, cfg, column, column, flat, r)
    case Group(x) => IsLayout(x, cfg, indent, column, true, r) || (!flat && IsLayout(x, cfg, indent, column, false, r))
    case Concat(items) => AreLayouts(items, cfg, indent, column, flat, r)
  }

  ghost predicate AreLayouts(items: Docs, cfg: Config, indent: int, column: int, flat: bool, r: Rendered)
    decreases items
  {
    match items
    case Nil => r == Rendered("", column)
    case Cons(d, more) =>
      exists a: Rendered, b: Rendered ::
        && IsLayout(d, cfg, indent, column, flat, a)
        && AreLayouts(more, cfg, indent, a.column, flat, b)
        && r == Rendered(a.text + b.text, b.column)
  }

  lemma {:induction false} JoinLayouts(d: Doc, more: Docs, cfg: Config, indent: int, column: int, flat: bool, a: Rendered, b: Rendered)
    requires IsLayout(d, cfg, indent, column, flat, a)
    requires AreLayouts(more, cfg, indent, a.column, flat, b)
    ensures AreLayouts(Cons(d, more), cfg, indent, column, flat, Rendered(a.text + b.text, b.column))
  {
  }

  lemma {:induction false} FlatIsLayout(d: Doc, cfg: Config, indent: int, column: int)
    requires !HasHardline(d)
    ensures IsLayout(d, cfg, indent, column, true, Rendered(FlatText(d), column + |FlatText(d)|))
    decreases d, 0
  {
    match d
    case Nest(step, x) => FlatNestIsLayout(step, x, cfg, indent, column);
    case Align(x) => FlatAlignIsLayout(x, cfg, indent, column);
    case Group(x) => FlatGroupIsLayout(x, cfg, indent, column);
    case Concat(items) => FlatConcatIsLayout(items, cfg, indent, column);
    case _ =>
  }

  lemma {:induction false} FlatNestIsLayout(step: int, x: Doc, cfg: Config, indent: int, column: int)
    requires !HasHardline(x)
    ensures IsLayout(Nest(step, x), cfg, indent, column, true, Rendered(FlatText(x), column + |FlatText(x)|))
    decreases x, 1
  {
    FlatIsLayout(x, cfg, indent + step, column);
  }

  lemma {:induction false} FlatAlignIsLayout(x: Doc, cfg: Config, indent: int, column: int)
    requires !HasHardline(x)
    ensures IsLayout(Align(x), cfg, indent, column, true, Rendered(FlatText(x), column + |FlatText(x)|))
    decreases x, 1
  {
    FlatIsLayout(x, cfg, column, column);
  }

  lemma {:induction false} FlatGroupIsLayout(x: Doc, cfg: Config, indent: int, column: int)
    requires !HasHardline(x)
    ensures IsLayout(Group(x), cfg, indent, column, true, Rendered(FlatText(x), column + |FlatText(x)|))
    decreases x, 1
  {
    FlatIsLayout(x, cfg, indent, column);
  }

  lemma {:induction false} FlatConcatIsLayout(items: Docs, cfg: Config, indent: int, column: int)
    requires !AnyHardline(items)
    ensures IsLayout(Concat(items), cfg, indent, column, true, Rendered(FlatTexts(items), column + |FlatTexts(items)|))
    decreases items, 1
  {
    FlatAreLayouts(items, cfg, indent, column);
  }

  lemma {:induction false} FlatAreLayouts(items: Docs, cfg: Config, indent: int, column: int)
    requires !AnyHardline(items)
    ensures AreLayouts(items, cfg, indent, column, true, Rendered(FlatTexts(items), column + |FlatTexts(items)|))
    decreases items, 0
  {
    if items.Cons? {
      FlatIsLayout(items.first, cfg, indent, column);
      var a := Rendered(FlatText(items.first), column + |FlatText(items.first)|);
      FlatAreLayouts(items.more, cfg, indent, a.column);
      var b := Rendered(FlatTexts(items.more), a.column + |FlatTexts(items.more)|);
      JoinLayouts(items.first, items.more, cfg, indent, column, true, a, b);
    }
  }

  /** Main result: outside a flat group the output is one of the document's layouts. */
  lemma {:induction false} RenderIsLayout(d: Doc, cfg: Config, indent: int, column: int)
    ensures IsLayout(d, cfg, indent, column, false, Render(d, cfg, indent, column, false))
    decreases d
  {
    match d
    case Nest(step, x) => RenderIsLayout(x, cfg, indent + step, column);
    case Align(x) => RenderIsLayout(x, cfg, column, column);
    case Group(x) =>
      GroupLayout(x, cfg, indent, column, false);
      if !HasHardline(x) && column + |FlatText(x)| <= cfg.maxWidth {
        FlatIsLayout(x, cfg, indent, column);
      } else {
        RenderIsLayout(x, cfg, indent, column);
      }
    case Concat(items) => RenderAreLayouts(items, cfg, indent, column);
    case _ =>
  }

  lemma {:induction false} RenderAreLayouts(items: Docs, cfg: Config, indent: int, column: int)
    ensures AreLayouts(items, cfg, indent, column, false, RenderAll(items, cfg, indent, column, false))
    decreases items
  {
    if items.Cons? {
      var a := Render(items.first, cfg, indent, column, false);
      var b := RenderAll(items.more, cfg, indent, a.column, false);
      RenderIsLayout(items.first, cfg, indent, column);
      RenderAreLayouts(items.more, cfg, indent, a.column);
      JoinLayouts(items.first, items.more, cfg, indent, column, false, a, b);
    }
  }

  // ----- Layout never touches the content -----

  predicate IsBlank(c: char) {
    c == ' ' || c == '\t' || c == '\n'
  }

  function NonBlank(s: string): string {
    if s == "" then ""
    else NonBlank(s[..|s| - 1]) + (if IsBlank(s[|s| - 1]) then "" else [s[|s| - 1]])
  }

  lemma {:induction false} NonBlankOfConcat(s: string, t: string)
    ensures NonBlank(s + t) == NonBlank(s) + NonBlank(t)
  {
    if t == "" {
      assert s + t == s;
    } else {
      var t' := t[..|t| - 1];
      assert (s + t)[..|s + t| - 1] == s + t';
      NonBlankOfConcat(s, t');
    }
  }

  lemma {:induction false} BlanksVanish(s: string)
    requires forall i :: 0 <= i < |s| ==> IsBlank(s[i])
    ensures NonBlank(s) == ""
  {
    if s != "" {
      BlanksVanish(s[..|s| - 1]);
    }
  }

  /** Main result: whatever the width, indent, column and mode, the non-blank characters are those of the flat text. */
  lemma {:induction false} ContentKept(d: Doc, cfg: Config, indent: int, column: int, flat: bool)
    ensures NonBlank(Render(d, cfg, indent, column, flat).text) == NonBlank(FlatText(d))
    decreases d
  {
    match d
    case Line(_) =>
      BlanksVanish(" ");
      BlanksVanish("\n" + Indentation(indent, cfg));
    case Nest(step, x) => ContentKept(x, cfg, indent + step, column, flat);
    case Group(x) => ContentKept(x, cfg, indent, column, Fits(x, cfg.maxWidth - column));
    case Concat(items) => ContentsKept(items, cfg, indent, column, flat);
    case Align(x) => ContentKept(x, cfg, column, column, flat);
    case _ =>
  }

  lemma {:induction false} ContentsKept(items: Docs, cfg: Config, indent: int, column: int, flat: bool)
    ensures NonBlank(RenderAll(items, cfg, indent, column, flat).text) == NonBlank(FlatTexts(items))
    decreases items
  {
    if items.Cons? {
      var r := Render(items.first, cfg, indent, column, flat);
      ContentKept(items.first, cfg, indent, column, flat);
      ContentsKept(items.more, cfg, indent, r.column, flat);
      NonBlankOfConcat(r.text, RenderAll(items.more, cfg, indent, r.column, flat).text);
      NonBlankOfConcat(FlatText(items.first), FlatTexts(items.more));
    }
  }

  // ----- The source's loops -----

  method MeasureFlat(d: Doc, budget: int) returns (w: int)
    ensures w == FlatWidth(d, budget)
    decreases d
  {
    match d
    case Null => w := 0;
    case Text(t) => w := |t|;
    case Line(hard) => w := if hard then -1 else 1;
    case Nest(_, x) => w := MeasureFlat(x, budget);
    case Group(x) => w := MeasureFlat(x, budget);
    case Align(x) => w := MeasureFlat(x, budget);
    case Comment(t) => w := |t|;
    case Concat(items) =>
      var total := 0;
      var rest := items;
      while rest.Cons?
        invariant SumWidths(items, budget, 0) == SumWidths(rest, budget, total)
        invariant rest == items || rest < items
        decreases rest
      {
        if !rest.first.Null? {
          var width := MeasureFlat(rest.first, budget - total);
          if width < 0 || total + width > budget {
            w := -1;
            return;
          }
          total := total + width;
        }
        rest := rest.more;
      }
      w := total;
  }

  /** The output under construction and the column the emitter believes it is at. */
  class Emitter {
    var out: string
    var column: int

    constructor ()
      ensures out == "" && column == 0
    {
      out, column := "", 0;
    }

    method EmitIndent(indent: int, cfg: Config)
      modifies this`out
      ensures out == old(out) + Indentation(indent, cfg)
    {
      var c := if cfg.indentSpaces < 0 then '\t' else ' ';
      var i := 0;
      while i < indent
        invariant 0 <= i && (i <= indent || i == 0)
        invariant out == old(out) + Spaces(i, c)
      {
        out := out + [c];
        i := i + 1;
      }
      assert Spaces(i, c) == Spaces(indent, c);
    }

    method RenderInto(d: Doc, cfg: Config, indent: int, flat: bool)
      modifies this
      ensures
        var r := Render(d, cfg, indent, old(column), flat);
        out == old(out) + r.text && column == r.column
      decreases d
    {
      match d
      case Null =>
      case Text(t) =>
        out, column := out + t, column + |t|;
      case Comment(t) =>
        out, column := out + t, column + |t|;
      case Line(hard) =>
        if flat && !hard {
          out, column := out + " ", column + 1;
        } else {
          out := out + "\n";
          EmitIndent(indent, cfg);
          column := indent;
        }
      case Nest(step, x) => RenderInto(x, cfg, indent + step, flat);
      case Align(x) => RenderInto(x, cfg, column, flat);
      case Group(x) =>
        var w := MeasureFlat(x, cfg.maxWidth - column);
        RenderInto(x, cfg, indent, 0 <= w <= cfg.maxWidth - column);
      case Concat(items) => RenderItems(items, cfg, indent, flat);
    }

    method RenderItems(items: Docs, cfg: Config, indent: int, flat: bool)
      modifies this
      ensures
        var r := RenderAll(items, cfg, indent, old(column), flat);
        out == old(out) + r.text && column == r.column
      decreases items
    {
      var rest := items;
      while rest.Cons?
        invariant rest == items || rest < items
        invariant
          var whole := RenderAll(items, cfg, indent, old(column), flat);
          var left := RenderAll(rest, cfg, indent, column, flat);
          old(out) + whole.text == out + left.text && whole.column == left.column
        decreases rest
      {
        ghost var left := RenderAll(rest, cfg, indent, column, flat);
        ghost var before := out;
        ghost var r := Render(rest.first, cfg, indent, column, flat);
        RenderInto(rest.first, cfg, indent, flat);
        rest := rest.more;
        ghost var tail := RenderAll(rest, cfg, indent, column, flat);
        assert before + (r.text + tail.text) == (before + r.text) + tail.text;
      }
    }
  }

  /** The rendered text is one of the document's layouts and carries exactly its non-blank characters. */
  method RenderDoc(d: Doc, maxLineLength: int, indentSpaces: int) returns (text: string)
    ensures
      var cfg := Config(maxLineLength, indentSpaces);
      text == Render(d, cfg, 0, 0, false).text
    ensures
      var cfg := Config(maxLineLength, indentSpaces);
      exists column :: IsLayout(d, cfg, 0, 0, false, Rendered(text, column))
    ensures NonBlank(text) == NonBlank(FlatText(d))
  {
    var cfg := Config(maxLineLength, indentSpaces);
    var emitter := new Emitter();
    emitter.RenderInto(d, cfg, 0, false);
    text := emitter.out;
    RenderIsLayout(d, cfg, 0, 0);
    ContentKept(d, cfg, 0, 0, false);
    ghost var r := Render(d, cfg, 0, 0, false);
    assert Rendered(text, r.column) == r;
    assert IsLayout(d, cfg, 0, 0, false, r);
  }
}
