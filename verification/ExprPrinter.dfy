/**
 Printing expression trees back to tokens with parentheses exactly where the
 parser of lib/Parse/ParseExpr.cpp needs them.
 */
module ExprPrinter {
  import opened ExprSyntax
  import opened PrattParser

  // ----- Adding parentheses -----

  function Wrap(e: Expr, fits: bool): Expr {
    if fits then e else Paren(e)
  }

  function WrapAt(e: Expr, floor: int): Expr {
    Wrap(e, WellFormed(e, floor))
  }

  /** Parentheses around every operand that its position would not give back whole. */
  function Parenthesize(e: Expr): Expr
    decreases e
  {
    match e
    case Atom(_) => e
    case Paren(x) => Paren(Parenthesize(x))
    case Cast(t, x, p) => Cast(t, Parenthesize(x), p)
    case Concat(d, ps) => Concat(d, ParenthesizeAll(ps))
    case Prefix(op, x) => Prefix(op, WrapAt(Parenthesize(x), MULTIPLICATIVE))
    case IfElse(c, t, x) =>
      var t' := Parenthesize(t);
      IfElse(Parenthesize(c), Wrap(t', WellFormed(t', LOGICAL_OR) && (x.Present? ==> StopsAt(t', LOGICAL_OR, TElse))),
             ParenthesizeElse(x))
    case Postfix(h, t) =>
      var h' := Parenthesize(h);
      Postfix(Wrap(h', IsPrim(h') && Stops(h', TailToken(t))), ParenthesizeTail(t))
    case Repeat(c, b) =>
      var c' := Parenthesize(c);
      Repeat(Wrap(c', IsPrim(c') && Stops(c', TLBrace)), Parenthesize(b))
    case Led(l, t) =>
      var l' := Parenthesize(l);
      Led(Wrap(l', Stops(l', LedToken(t))), ParenthesizeLed(t))
  }

  function ParenthesizeElse(x: MaybeExpr): MaybeExpr
    decreases x
  {
    match x
    case Absent => Absent
    case Present(e) => Present(WrapAt(Parenthesize(e), LOGICAL_OR))
  }

  function ParenthesizeTail(t: PostfixTail): (t': PostfixTail)
    ensures TailToken(t') == TailToken(t)
    decreases t
  {
    match t
    case Slice(hi, Absent) => Slice(Parenthesize(hi), Absent)
    case Slice(hi, Present(lo)) => Slice(Parenthesize(hi), Present(Parenthesize(lo)))
    case Field(_) => t
    case Call(a) => Call(ParenthesizeAll(a))
  }

  function ParenthesizeLed(t: LedTail): (t': LedTail)
    ensures LedToken(t') == LedToken(t)
    decreases t
  {
    match t
    case Infix(op, r) => Infix(op, WrapAt(Parenthesize(r), Prec(op) + 1))
    case Ternary(y, n) => Ternary(WrapAt(Parenthesize(y), CONDITIONAL), WrapAt(Parenthesize(n), CONDITIONAL))
    case SignExtend(x) => SignExtend(Wrap(Parenthesize(x), IsPrim(Parenthesize(x))))
    case ZeroExtend(x) => ZeroExtend(Parenthesize(x))
    case PostStep(_) => t
  }

  function ParenthesizeAll(es: Exprs): Exprs
    decreases es
  {
    match es
    case Nil => Nil
    case Cons(e, more) => Cons(Parenthesize(e), ParenthesizeAll(more))
  }

  // ----- Forgetting parentheses -----

  /** The tree as the AST holds it: no parentheses. */
  function Strip(e: Expr): Expr
    decreases e
  {
    match e
    case Atom(_) => e
    case Paren(x) => Strip(x)
    case Cast(t, x, p) => Cast(t, Strip(x), p)
    case Concat(d, ps) => Concat(d, StripAll(ps))
    case Prefix(op, x) => Prefix(op, Strip(x))
    case IfElse(c, t, x) => IfElse(Strip(c), Strip(t), StripElse(x))
    case Postfix(h, t) => Postfix(Strip(h), StripTail(t))
    case Repeat(c, b) => Repeat(Strip(c), Strip(b))
    case Led(l, t) => Led(Strip(l), StripLed(t))
  }

  function StripElse(x: MaybeExpr): MaybeExpr
    decreases x
  {
    match x
    case Absent => Absent
    case Present(e) => Present(Strip(e))
  }

  function StripTail(t: PostfixTail): PostfixTail
    decreases t
  {
    match t
    case Slice(hi, lo) => Slice(Strip(hi), StripElse(lo))
    case Field(_) => t
    case Call(a) => Call(StripAll(a))
  }

  function StripLed(t: LedTail): LedTail
    decreases t
  {
    match t
    case Infix(op, r) => Infix(op, Strip(r))
    case Ternary(y, n) => Ternary(Strip(y), Strip(n))
    case SignExtend(x) => SignExtend(Strip(x))
    case ZeroExtend(x) => ZeroExtend(Strip(x))
    case PostStep(_) => t
  }

  function StripAll(es: Exprs): Exprs
    decreases es
  {
    match es
    case Nil => Nil
    case Cons(e, more) => Cons(Strip(e), StripAll(more))
  }

  // ----- Parentheses change nothing but the spelling -----

  lemma {:induction false} ParenthesizeKeeps(e: Expr)
    ensures Strip(Parenthesize(e)) == Strip(e)
    decreases e
  {
    match e
    case Atom(_) =>
    case Paren(x) => ParenthesizeKeeps(x);
    case Cast(_, x, _) => ParenthesizeKeeps(x);
    case Concat(_, ps) => ParenthesizeAllKeeps(ps);
    case Prefix(_, x) => ParenthesizeKeeps(x);
    case IfElse(c, t, x) =>
      ParenthesizeKeeps(c);
      ParenthesizeKeeps(t);
      ParenthesizeElseKeeps(x);
    case Postfix(h, t) =>
      ParenthesizeKeeps(h);
      ParenthesizeTailKeeps(t);
    case Repeat(c, b) =>
      ParenthesizeKeeps(c);
      ParenthesizeKeeps(b);
    case Led(l, t) =>
      ParenthesizeKeeps(l);
      ParenthesizeLedKeeps(t);
  }

  lemma {:induction false} ParenthesizeElseKeeps(x: MaybeExpr)
    ensures StripElse(ParenthesizeElse(x)) == StripElse(x)
    decreases x
  {
    if x.Present? { ParenthesizeKeeps(x.expr); }
  }

  lemma {:induction false} ParenthesizeTailKeeps(t: PostfixTail)
    ensures StripTail(ParenthesizeTail(t)) == StripTail(t)
    decreases t
  {
    match t
    case Slice(hi, Absent) => ParenthesizeKeeps(hi);
    case Slice(hi, Present(lo)) =>
      ParenthesizeKeeps(hi);
      ParenthesizeKeeps(lo);
      assert StripElse(Present(Parenthesize(lo))) == StripElse(Present(lo));
    case Field(_) =>
    case Call(a) => ParenthesizeAllKeeps(a);
  }

  lemma {:induction false} ParenthesizeLedKeeps(t: LedTail)
    ensures StripLed(ParenthesizeLed(t)) == StripLed(t)
    decreases t
  {
    match t
    case Infix(_, r) => ParenthesizeKeeps(r);
    case Ternary(y, n) =>
      ParenthesizeKeeps(y);
      ParenthesizeKeeps(n);
    case SignExtend(x) => ParenthesizeKeeps(x);
    case ZeroExtend(x) => ParenthesizeKeeps(x);
    case PostStep(_) =>
  }

  lemma {:induction false} ParenthesizeAllKeeps(es: Exprs)
    ensures StripAll(ParenthesizeAll(es)) == StripAll(es)
    decreases es
  {
    if es.Cons? {
      ParenthesizeKeeps(es.first);
      ParenthesizeAllKeeps(es.more);
    }
  }

  // ----- The result is well formed -----

  lemma {:induction false} WrapFits(e: Expr, floor: int)
    requires WellFormed(e, 0)
    ensures WellFormed(WrapAt(e, floor), floor)
  {
  }

  lemma {:induction false} ParenthesizeFits(e: Expr)
    ensures WellFormed(Parenthesize(e), 0)
    decreases e
  {
    match e
    case Atom(_) =>
    case Paren(x) => ParenthesizeFits(x);
    case Cast(_, x, _) => ParenthesizeFits(x);
    case Concat(_, ps) => ParenthesizeAllFits(ps);
    case Prefix(_, x) =>
      ParenthesizeFits(x);
      WrapFits(Parenthesize(x), MULTIPLICATIVE);
    case IfElse(c, t, x) =>
      ParenthesizeFits(c);
      ParenthesizeFits(t);
      ParenthesizeElseFits(x);
    case Postfix(h, t) =>
      ParenthesizeFits(h);
      ParenthesizeTailFits(t);
      PostfixFits(Parenthesize(h), ParenthesizeTail(t));
    case Repeat(c, b) =>
      ParenthesizeFits(c);
      ParenthesizeFits(b);
    case Led(l, t) =>
      ParenthesizeFits(l);
      ParenthesizeLedFits(t);
      LedFits(Parenthesize(l), ParenthesizeLed(t));
  }

  lemma {:induction false} PostfixFits(h: Expr, t: PostfixTail)
    requires WellFormed(h, 0) && TailWellFormed(t)
    ensures WellFormed(Postfix(Wrap(h, IsPrim(h) && Stops(h, TailToken(t))), t), 0)
  {
  }

  lemma {:induction false} LedFits(l: Expr, t: LedTail)
    requires WellFormed(l, 0) && LedWellFormed(t)
    ensures WellFormed(Led(Wrap(l, Stops(l, LedToken(t))), t), 0)
  {
  }

  lemma {:induction false} ParenthesizeElseFits(x: MaybeExpr)
    ensures
      var x' := ParenthesizeElse(x);
      x'.Present? == x.Present? && (x'.Present? ==> WellFormed(x'.expr, LOGICAL_OR))
    decreases x
  {
    if x.Present? {
      ParenthesizeFits(x.expr);
      WrapFits(Parenthesize(x.expr), LOGICAL_OR);
    }
  }

  lemma {:induction false} ParenthesizeTailFits(t: PostfixTail)
    ensures TailWellFormed(ParenthesizeTail(t))
    decreases t
  {
    match t
    case Slice(hi, Absent) => ParenthesizeFits(hi);
    case Slice(hi, Present(lo)) =>
      ParenthesizeFits(hi);
      ParenthesizeFits(lo);
    case Field(_) =>
    case Call(a) => ParenthesizeAllFits(a);
  }

  lemma {:induction false} ParenthesizeLedFits(t: LedTail)
    ensures LedWellFormed(ParenthesizeLed(t))
    decreases t
  {
    match t
    case Infix(op, r) =>
      ParenthesizeFits(r);
      WrapFits(Parenthesize(r), Prec(op) + 1);
    case Ternary(y, n) =>
      ParenthesizeFits(y);
      ParenthesizeFits(n);
      WrapFits(Parenthesize(y), CONDITIONAL);
      WrapFits(Parenthesize(n), CONDITIONAL);
    case SignExtend(x) => ParenthesizeFits(x);
    case ZeroExtend(x) => ParenthesizeFits(x);
    case PostStep(_) =>
  }

  lemma {:induction false} ParenthesizeAllFits(es: Exprs)
    ensures AllWellFormed(ParenthesizeAll(es))
    decreases es
  {
    if es.Cons? {
      ParenthesizeFits(es.first);
      ParenthesizeAllFits(es.more);
    }
  }

  // ----- No parentheses where none are needed -----

  lemma {:induction false} ParenthesizeIdle(e: Expr, floor: int)
    requires WellFormed(e, floor) && floor >= 0
    ensures Parenthesize(e) == e
    decreases e
  {
    match e
    case Atom(_) =>
    case Paren(x) => ParenthesizeIdle(x, 0);
    case Cast(_, x, _) => ParenthesizeIdle(x, 0);
    case Concat(_, ps) => ParenthesizeAllIdle(ps);
    case Prefix(_, x) => ParenthesizeIdle(x, MULTIPLICATIVE);
    case IfElse(c, t, x) =>
      ParenthesizeIdle(c, 0);
      ParenthesizeIdle(t, LOGICAL_OR);
      if x.Present? {
        ParenthesizeIdle(x.expr, LOGICAL_OR);
        assert ParenthesizeElse(x) == x;
      }
    case Postfix(h, t) =>
      ParenthesizeIdle(h, 0);
      ParenthesizeTailIdle(t);
    case Repeat(c, b) =>
      ParenthesizeIdle(c, 0);
      ParenthesizeIdle(b, 0);
    case Led(l, t) =>
      ParenthesizeIdle(l, floor);
      ParenthesizeLedIdle(t);
  }

  lemma {:induction false} ParenthesizeTailIdle(t: PostfixTail)
    requires TailWellFormed(t)
    ensures ParenthesizeTail(t) == t
    decreases t
  {
    match t
    case Slice(hi, Absent) => ParenthesizeIdle(hi, 0);
    case Slice(hi, Present(lo)) =>
      ParenthesizeIdle(hi, 0);
      ParenthesizeIdle(lo, 0);
    case Field(_) =>
    case Call(a) => ParenthesizeAllIdle(a);
  }

  lemma {:induction false} ParenthesizeLedIdle(t: LedTail)
    requires LedWellFormed(t)
    ensures ParenthesizeLed(t) == t
    decreases t
  {
    match t
    case Infix(op, r) => ParenthesizeIdle(r, Prec(op) + 1);
    case Ternary(y, n) =>
      ParenthesizeIdle(y, CONDITIONAL);
      ParenthesizeIdle(n, CONDITIONAL);
    case SignExtend(x) => ParenthesizeIdle(x, 0);
    case ZeroExtend(x) => ParenthesizeIdle(x, 0);
    case PostStep(_) =>
  }

  lemma {:induction false} ParenthesizeAllIdle(es: Exprs)
    requires AllWellFormed(es)
    ensures ParenthesizeAll(es) == es
    decreases es
  {
    if es.Cons? {
      ParenthesizeIdle(es.first, 0);
      ParenthesizeAllIdle(es.more);
    }
  }

  // ----- Main results -----

  /** Print then parse: every tree comes back, and exactly its tokens are consumed. */
  lemma {:induction false} PrintThenParse(e: Expr, rest: Stream)
    requires IsCloser(Peek(rest))
    ensures ParseExpr(0, Emit(Parenthesize(e), rest)) == Ok(Parenthesize(e), rest)
    ensures Strip(Parenthesize(e)) == Strip(e)
  {
    ParenthesizeFits(e);
    ParenthesizeKeeps(e);
    ClosersStop(Parenthesize(e), Peek(rest));
    ExprComplete(Parenthesize(e), 0, rest);
  }

  /** Parentheses are added exactly to the trees the parser would not build. */
  lemma {:induction false} ParenthesesOnlyWhereNeeded(e: Expr)
    ensures Parenthesize(e) == e <==> WellFormed(e, 0)
  {
    ParenthesizeFits(e);
    if WellFormed(e, 0) {
      ParenthesizeIdle(e, 0);
    }
  }
}
