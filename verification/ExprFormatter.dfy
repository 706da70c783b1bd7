/**
 The formatter's own spelling of operator trees (lib/Fmt/LayoutPlanner.cpp): the
 nodes it writes from the tree and not from the source text between operands.
 It writes no parentheses, and a unary operator directly against its operand,
 where two operators can become one token.
 */
module ExprFormatter {
  import opened Wrappers
  import opened ExprSyntax
  import opened PrattParser
  import ExprPrinter
  import Lexer

  /** Leaves, unary and binary operators, slices, concatenations, and parentheses around them. */
  predicate IsOperatorTree(e: Expr)
    decreases e
  {
    match e
    case Atom(_) => true
    case Paren(x) => IsOperatorTree(x)
    case Concat(_, ps) => AreOperatorTrees(ps)
    case Prefix(Unary(_), x) => IsOperatorTree(x)
    case Postfix(h, Slice(hi, lo)) => IsOperatorTree(h) && IsOperatorTree(hi) && (lo.Present? ==> IsOperatorTree(lo.expr))
    case Led(l, Infix(_, r)) => IsOperatorTree(l) && IsOperatorTree(r)
    case _ => false
  }

  predicate AreOperatorTrees(es: Exprs)
    decreases es
  {
    match es
    case Nil => true
    case Cons(e, more) => IsOperatorTree(e) && AreOperatorTrees(more)
  }

  /** The tree the AST holds: no parentheses, and one kind of concatenation. */
  function Tree(e: Expr): Expr
    requires IsOperatorTree(e)
    decreases e
  {
    match e
    case Atom(_) => e
    case Paren(x) => Tree(x)
    case Concat(_, ps) => Concat(false, Trees(ps))
    case Prefix(op, x) => Prefix(op, Tree(x))
    case Postfix(h, Slice(hi, Absent)) => Postfix(Tree(h), Slice(Tree(hi), Absent))
    case Postfix(h, Slice(hi, Present(lo))) => Postfix(Tree(h), Slice(Tree(hi), Present(Tree(lo))))
    case Led(l, Infix(op, r)) => Led(Tree(l), Infix(op, Tree(r)))
  }

  function Trees(es: Exprs): Exprs
    requires AreOperatorTrees(es)
    decreases es
  {
    match es
    case Nil => Nil
    case Cons(e, more) => Cons(Tree(e), Trees(more))
  }

  /** The AST's tree is the stripped tree, up to the kind of concatenation. */
  lemma {:induction false} TreeOfStripped(e: Expr)
    requires IsOperatorTree(e)
    ensures IsOperatorTree(ExprPrinter.Strip(e)) && Tree(ExprPrinter.Strip(e)) == Tree(e)
    decreases e
  {
    match e
    case Atom(_) =>
    case Paren(x) => TreeOfStripped(x);
    case Concat(_, ps) => TreesOfStripped(ps);
    case Prefix(_, x) => TreeOfStripped(x);
    case Postfix(h, Slice(hi, Absent)) =>
      TreeOfStripped(h);
      TreeOfStripped(hi);
      assert ExprPrinter.StripTail(e.tail) == Slice(ExprPrinter.Strip(hi), Absent);
    case Postfix(h, Slice(hi, Present(lo))) =>
      TreeOfStripped(h);
      TreeOfStripped(hi);
      TreeOfStripped(lo);
      assert ExprPrinter.StripTail(e.tail) == Slice(ExprPrinter.Strip(hi), Present(ExprPrinter.Strip(lo)));
    case Led(l, Infix(op, r)) =>
      TreeOfStripped(l);
      TreeOfStripped(r);
      assert ExprPrinter.StripLed(e.led) == Infix(op, ExprPrinter.Strip(r));
  }

  lemma {:induction false} TreesOfStripped(es: Exprs)
    requires AreOperatorTrees(es)
    ensures AreOperatorTrees(ExprPrinter.StripAll(es)) && Trees(ExprPrinter.StripAll(es)) == Trees(es)
    decreases es
  {
    if es.Cons? {
      TreeOfStripped(es.first);
      TreesOfStripped(es.more);
    }
  }

  // ----- Adjacent operators -----

  function UnaryChar(op: UnaryOp): char {
    match op
    case Neg => '-'
    case Plus => '+'
    case BitNot => '~'
    case LogicalNot => '!'
    case ReduceAnd => '&'
    case ReduceOr => '|'
    case ReduceXor => '^'
  }

  /** The first character of an operator token that an operand can start with; other operands start with none. */
  function LeadChar(k: Token): Option<char> {
    if IsUnaryToken(k) then Some(UnaryChar(UnaryOpFor(k)))
    else if k == TStep(true) then Some('+')
    else if k == TStep(false) then Some('-')
    else if k == TInfix(LogicalAnd) then Some('&')
    else if k == TInfix(LogicalOr) then Some('|')
    else None
  }

  /** Written together, the lexer takes the operator and the first character of the operand for one token. */
  predicate Glues(op: UnaryOp, k: Token) {
    LeadChar(k).Some? && Lexer.TwoChar(UnaryChar(op), LeadChar(k).value)
  }

  predicate Doubles(op: UnaryOp) {
    op.Neg? || op.Plus? || op.ReduceAnd? || op.ReduceOr?
  }

  /** The token spelled as the operator twice. */
  function Double(op: UnaryOp): Token
    requires Doubles(op)
  {
    match op
    case Neg => TStep(false)
    case Plus => TStep(true)
    case ReduceAnd => TInfix(LogicalAnd)
    case ReduceOr => TInfix(LogicalOr)
  }

  lemma {:induction false} SameCharSameOp(op: UnaryOp, u: UnaryOp)
    ensures Lexer.TwoChar(UnaryChar(op), UnaryChar(u)) <==> Doubles(op) && op == u
    ensures UnaryToken(op) == UnaryToken(u) <==> op == u
  {
  }

  /** Only an operator before itself, or before itself twice. */
  lemma {:induction false} GluesIff(op: UnaryOp, k: Token)
    ensures Glues(op, k) <==> Doubles(op) && (k == UnaryToken(op) || k == Double(op))
  {
    if IsUnaryToken(k) {
      UnaryTokenBack(k);
      SameCharSameOp(op, UnaryOpFor(k));
    }
  }

  /**
   The tokens of the operator written against the operand's: longest match takes
   characters in pairs from the left. A doubled token first in an operand is
   itself a glued one, with the next token against it.
   */
  function Abut(op: UnaryOp, ts: Stream): Stream
    decreases ts
  {
    if ts.End? || !Glues(op, ts.head) then Tok(UnaryToken(op), ts)
    else
      GluesIff(op, ts.head);
      if ts.head == UnaryToken(op) then Tok(Double(op), ts.tail) else Tok(Double(op), Abut(op, ts.tail))
  }

  // ----- The formatter -----

  /** The tokens the formatter's text for the tree lexes to, followed by `rest`. */
  function Format(e: Expr, rest: Stream): Stream
    requires IsOperatorTree(e)
    decreases e
  {
    match e
    case Atom(l) => Tok(LeafToken(l), rest)
    case Paren(x) => Format(x, rest)
    case Concat(_, ps) => Tok(TLBrace, FormatList(ps, Tok(TRBrace, rest)))
    case Prefix(Unary(op), x) => Abut(op, Format(x, rest))
    case Postfix(h, Slice(hi, Absent)) => Format(h, Tok(TLBracket, Format(hi, Tok(TRBracket, rest))))
    case Postfix(h, Slice(hi, Present(lo))) =>
      Format(h, Tok(TLBracket, Format(hi, Tok(TColon, Format(lo, Tok(TRBracket, rest))))))
    case Led(l, Infix(op, r)) => Format(l, Tok(TInfix(op), Format(r, rest)))
  }

  function FormatList(es: Exprs, rest: Stream): Stream
    requires AreOperatorTrees(es)
    decreases es
  {
    match es
    case Nil => rest
    case Cons(e, Nil) => Format(e, rest)
    case Cons(e, more) => Format(e, Tok(TComma, FormatList(more, rest)))
  }

  function FirstToken(e: Expr): Token
    requires IsOperatorTree(e)
    decreases e
  {
    match e
    case Atom(l) => LeafToken(l)
    case Paren(x) => FirstToken(x)
    case Concat(_, _) => TLBrace
    case Prefix(Unary(op), _) => UnaryToken(op)
    case Postfix(h, _) => FirstToken(h)
    case Led(l, _) => FirstToken(l)
  }

  /** No unary operator stands directly before a token that starts with its own `-`, `+`, `&` or `|`. */
  predicate Separate(e: Expr)
    requires IsOperatorTree(e)
    decreases e
  {
    match e
    case Atom(_) => true
    case Paren(x) => Separate(x)
    case Concat(_, ps) => AllSeparate(ps)
    case Prefix(Unary(op), x) => Separate(x) && !Glues(op, FirstToken(x))
    case Postfix(h, Slice(hi, lo)) => Separate(h) && Separate(hi) && (lo.Present? ==> Separate(lo.expr))
    case Led(l, Infix(_, r)) => Separate(l) && Separate(r)
  }

  predicate AllSeparate(es: Exprs)
    requires AreOperatorTrees(es)
    decreases es
  {
    match es
    case Nil => true
    case Cons(e, more) => Separate(e) && AllSeparate(more)
  }

  // ----- Where nothing glues, the tokens are the tree's -----

  lemma {:induction false} FormatIsEmit(e: Expr, rest: Stream)
    requires IsOperatorTree(e) && Separate(e)
    ensures Format(e, rest) == Emit(Tree(e), rest)
    ensures Format(e, rest).Tok? && Format(e, rest).head == FirstToken(e)
    decreases e
  {
    match e
    case Atom(_) =>
    case Paren(x) => FormatIsEmit(x, rest);
    case Concat(_, ps) => FormatListIsEmit(ps, Tok(TRBrace, rest));
    case Prefix(Unary(op), x) => FormatIsEmit(x, rest);
    case Postfix(h, Slice(hi, lo)) => SliceIsEmit(e, rest);
    case Led(l, Infix(op, r)) =>
      FormatIsEmit(r, rest);
      FormatIsEmit(l, Tok(TInfix(op), Format(r, rest)));
  }

  lemma {:induction false} SliceIsEmit(e: Expr, rest: Stream)
    requires IsOperatorTree(e) && Separate(e) && e.Postfix?
    ensures Format(e, rest) == Emit(Tree(e), rest)
    ensures Format(e, rest).Tok? && Format(e, rest).head == FirstToken(e)
    decreases e, 0
  {
    match e
    case Postfix(h, Slice(hi, Absent)) =>
      FormatIsEmit(hi, Tok(TRBracket, rest));
      FormatIsEmit(h, Tok(TLBracket, Format(hi, Tok(TRBracket, rest))));
    case Postfix(h, Slice(hi, Present(lo))) =>
      var after := Format(lo, Tok(TRBracket, rest));
      FormatIsEmit(lo, Tok(TRBracket, rest));
      FormatIsEmit(hi, Tok(TColon, after));
      FormatIsEmit(h, Tok(TLBracket, Format(hi, Tok(TColon, after))));
  }

  lemma {:induction false} FormatListIsEmit(es: Exprs, rest: Stream)
    requires AreOperatorTrees(es) && AllSeparate(es)
    ensures FormatList(es, rest) == EmitList(Trees(es), rest)
    decreases es
  {
    match es
    case Nil =>
    case Cons(e, Nil) => FormatIsEmit(e, rest);
    case Cons(e, more) =>
      FormatListIsEmit(more, rest);
      FormatIsEmit(e, Tok(TComma, FormatList(more, rest)));
  }

  // ----- Where something glues, there are fewer tokens -----

  lemma {:induction false} AbutLength(op: UnaryOp, ts: Stream)
    ensures Len(Abut(op, ts)) <= Len(ts) + 1
    ensures ts.Tok? && ts.head == UnaryToken(op) && Doubles(op) ==> Len(Abut(op, ts)) == Len(ts)
    decreases ts
  {
    if ts.Tok? {
      GluesIff(op, ts.head);
      if Glues(op, ts.head) && ts.head != UnaryToken(op) {
        AbutLength(op, ts.tail);
      }
    }
  }

  /** Operand first tokens that glue are the operator itself. */
  lemma {:induction false} FirstIsNoDouble(e: Expr, op: UnaryOp)
    requires IsOperatorTree(e) && Glues(op, FirstToken(e))
    ensures FirstToken(e) == UnaryToken(op) && Doubles(op)
    decreases e
  {
    match e
    case Atom(_) => GluesIff(op, FirstToken(e));
    case Paren(x) => FirstIsNoDouble(x, op);
    case Concat(_, _) => GluesIff(op, FirstToken(e));
    case Prefix(Unary(u), _) => GluesIff(op, FirstToken(e));
    case Postfix(h, _) => FirstIsNoDouble(h, op);
    case Led(l, _) => FirstIsNoDouble(l, op);
  }

  /** `ts` is no longer than `ts'`, and shorter if `strictly`. */
  predicate NoLonger(ts: Stream, ts': Stream, strictly: bool) {
    Len(ts) <= Len(ts') && (strictly ==> Len(ts) < Len(ts'))
  }

  lemma {:induction false} FormatShortens(e: Expr, ts: Stream, ts': Stream, strictly: bool)
    requires IsOperatorTree(e) && NoLonger(ts, ts', strictly)
    ensures NoLonger(Format(e, ts), Emit(Tree(e), ts'), strictly || !Separate(e))
    decreases e
  {
    match e
    case Atom(_) =>
    case Paren(x) => FormatShortens(x, ts, ts', strictly);
    case Concat(_, ps) => FormatListShortens(ps, Tok(TRBrace, ts), Tok(TRBrace, ts'), strictly);
    case Prefix(Unary(op), x) => UnaryShortens(e, ts, ts', strictly);
    case Postfix(h, Slice(hi, lo)) => SliceShortens(e, ts, ts', strictly);
    case Led(l, Infix(op, r)) =>
      FormatShortens(r, ts, ts', strictly);
      FormatShortens(l, Tok(TInfix(op), Format(r, ts)), Tok(TInfix(op), Emit(Tree(r), ts')), strictly || !Separate(r));
  }

  lemma {:induction false} UnaryShortens(e: Expr, ts: Stream, ts': Stream, strictly: bool)
    requires e.Prefix? && IsOperatorTree(e) && NoLonger(ts, ts', strictly)
    ensures NoLonger(Format(e, ts), Emit(Tree(e), ts'), strictly || !Separate(e))
    decreases e, 0
  {
    var op, x := e.op.uop, e.sub;
    FormatShortens(x, ts, ts', strictly);
    AbutLength(op, Format(x, ts));
    if Separate(x) && Glues(op, FirstToken(x)) {
      FormatIsEmit(x, ts);
      FirstIsNoDouble(x, op);
    }
  }

  lemma {:induction false} SliceShortens(e: Expr, ts: Stream, ts': Stream, strictly: bool)
    requires e.Postfix? && IsOperatorTree(e) && NoLonger(ts, ts', strictly)
    ensures NoLonger(Format(e, ts), Emit(Tree(e), ts'), strictly || !Separate(e))
    decreases e, 0
  {
    var h, hi, lo := e.head, e.tail.hi, e.tail.lo;
    var c, c' := Tok(TRBracket, ts), Tok(TRBracket, ts');
    if lo.Absent? {
      FormatShortens(hi, c, c', strictly);
      FormatShortens(h, Tok(TLBracket, Format(hi, c)), Tok(TLBracket, Emit(Tree(hi), c')), strictly || !Separate(hi));
    } else {
      FormatShortens(lo.expr, c, c', strictly);
      var d, d' := Tok(TColon, Format(lo.expr, c)), Tok(TColon, Emit(Tree(lo.expr), c'));
      var later := strictly || !Separate(lo.expr);
      FormatShortens(hi, d, d', later);
      FormatShortens(h, Tok(TLBracket, Format(hi, d)), Tok(TLBracket, Emit(Tree(hi), d')), later || !Separate(hi));
    }
  }

  lemma {:induction false} FormatListShortens(es: Exprs, ts: Stream, ts': Stream, strictly: bool)
    requires AreOperatorTrees(es) && NoLonger(ts, ts', strictly)
    ensures NoLonger(FormatList(es, ts), EmitList(Trees(es), ts'), strictly || !AllSeparate(es))
    decreases es
  {
    match es
    case Nil =>
    case Cons(e, Nil) =>
      assert AllSeparate(es) == Separate(e);
      FormatShortens(e, ts, ts', strictly);
    case Cons(e, more) =>
      FormatListShortens(more, ts, ts', strictly);
      FormatShortens(e, Tok(TComma, FormatList(more, ts)), Tok(TComma, EmitList(Trees(more), ts')), strictly || !AllSeparate(more));
  }

  // ----- Main results -----

  /**
   What the formatter writes for an operator tree comes back as that tree, with
   exactly its tokens consumed, if and only if the tree needs no parentheses and
   no unary operator glues to its operand.
   */
  lemma {:induction false} FormatKeepsTreeIff(e: Expr, rest: Stream)
    requires IsOperatorTree(e) && IsCloser(Peek(rest))
    ensures ParseExpr(0, Format(e, rest)) == Ok(Tree(e), rest) <==> WellFormed(Tree(e), 0) && Separate(e)
  {
    if Separate(e) {
      FormatIsEmit(e, rest);
      ReadsBackIff(Tree(e), rest);
    } else {
      FormatShortens(e, rest, rest, false);
      OnlyItsTokens(Format(e, rest), Tree(e), rest);
    }
  }

  lemma {:induction false} ReadsBackIff(e: Expr, rest: Stream)
    requires IsCloser(Peek(rest))
    ensures ParseExpr(0, Emit(e, rest)) == Ok(e, rest) <==> WellFormed(e, 0)
  {
    ClosersStop(e, Peek(rest));
    ParsesIff(0, Emit(e, rest), e, rest);
  }

  /** Other tokens do not parse to the tree. */
  lemma {:induction false} OnlyItsTokens(ts: Stream, e: Expr, rest: Stream)
    requires Len(ts) < Len(Emit(e, rest))
    ensures ParseExpr(0, ts) != Ok(e, rest)
  {
    ParsesIff(0, ts, e, rest);
  }

  /** For those trees the tokens are also those of the printer that adds parentheses. */
  lemma {:induction false} FormatIsPrinted(e: Expr, rest: Stream)
    requires IsOperatorTree(e) && WellFormed(Tree(e), 0) && Separate(e)
    ensures Format(e, rest) == Emit(ExprPrinter.Parenthesize(Tree(e)), rest)
  {
    FormatIsEmit(e, rest);
    ExprPrinter.ParenthesesOnlyWhereNeeded(Tree(e));
  }

  function Name(s: string): Expr {
    Atom(Ident(Word(s)))
  }

  lemma {:induction false} NameIsTree(a: string)
    ensures IsOperatorTree(Name(a)) && Tree(Name(a)) == Name(a)
  {
  }

  /** `(a + b) * c` loses its parentheses and its shape: `a + b * c` is another tree. */
  lemma {:induction false} FormatLosesParentheses(a: string, b: string, c: string, rest: Stream)
    requires IsCloser(Peek(rest))
    ensures
      var e := Led(Paren(Led(Name(a), Infix(Add, Name(b)))), Infix(Mul, Name(c)));
      IsOperatorTree(e) && ParseExpr(0, Format(e, rest)) != Ok(Tree(e), rest)
  {
    var sum := Led(Name(a), Infix(Add, Name(b)));
    var e := Led(Paren(sum), Infix(Mul, Name(c)));
    NameIsTree(a);
    NameIsTree(b);
    NameIsTree(c);
    assert IsOperatorTree(sum) && Tree(sum) == sum;
    assert IsOperatorTree(Paren(sum)) && Tree(Paren(sum)) == sum;
    FormatKeepsTreeIff(e, rest);
    SumCapturesStar(Tree(e), Name(b));
  }

  /** A sum followed by `*` would have given its right operand to the product. */
  lemma {:induction false} SumCapturesStar(e: Expr, b: Expr)
    requires e.Led? && LedToken(e.led) == TInfix(Mul) && e.lhs.Led? && e.lhs.led == Infix(Add, b)
    ensures !WellFormed(e, 0)
  {
    assert !LedStops(e.lhs.led, TInfix(Mul));
    assert !Stops(e.lhs, TInfix(Mul));
  }

  /** `- -a` is written `--a`, which is one decrement. */
  lemma {:induction false} NegationsGlue(a: string, rest: Stream)
    requires IsCloser(Peek(rest))
    ensures
      var e := Prefix(Unary(Neg), Prefix(Unary(Neg), Name(a)));
      && IsOperatorTree(e) && WellFormed(Tree(e), 0)
      && Format(e, rest) == Tok(TStep(false), Tok(TName(Word(a)), rest))
      && ParseExpr(0, Format(e, rest)) == Ok(Prefix(PreStep(false), Name(a)), rest)
  {
    var x := Prefix(Unary(Neg), Name(a));
    var e := Prefix(Unary(Neg), x);
    NameIsTree(a);
    assert IsOperatorTree(x) && Tree(x) == x;
    assert IsOperatorTree(e) && Tree(e) == e;
    assert WellFormed(Name(a), MULTIPLICATIVE) && WellFormed(x, MULTIPLICATIVE);
    assert Format(Name(a), rest) == Tok(TName(Word(a)), rest);
    assert Format(x, rest) == Tok(UnaryToken(Neg), Tok(TName(Word(a)), rest));
    GluesIff(Neg, UnaryToken(Neg));
    assert Format(e, rest) == Tok(TStep(false), Tok(TName(Word(a)), rest));
    DecrementParses(a, rest);
  }

  lemma {:induction false} DecrementParses(a: string, rest: Stream)
    requires IsCloser(Peek(rest))
    ensures ParseExpr(0, Tok(TStep(false), Tok(TName(Word(a)), rest))) == Ok(Prefix(PreStep(false), Name(a)), rest)
  {
    var step := Prefix(PreStep(false), Name(a));
    assert Emit(Name(a), rest) == Tok(TName(Word(a)), rest);
    assert WellFormed(Name(a), MULTIPLICATIVE);
    ReadsBackIff(step, rest);
  }
}
