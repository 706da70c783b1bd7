/**
 The parser object of lib/Parse/ParseExpr.cpp: methods that consume a shared
 token cursor and rebuild the left operand in loops, each proved to do what the
 function of the same step in `PrattParser` does.
 */
module ExprParser {
  import opened Wrappers
  import opened ExprSyntax
  import opened PrattParser

  /** A method's outcome and cursor are those of the function. After a failure the cursor is anywhere. */
  ghost predicate Agrees<T>(r: Parsed<T>, v: Option<T>, rest: Stream) {
    match r
    case Ok(x, after) => v == Some(x) && rest == after
    case Fail => v.None?
  }

  function ToExprs(es: seq<Expr>, tail: Exprs): Exprs {
    if es == [] then tail else Cons(es[0], ToExprs(es[1..], tail))
  }

  /** The list outcome `r` with the already parsed `es` in front. */
  function InFront(es: seq<Expr>, r: Parsed<Exprs>): Parsed<Exprs> {
    match r
    case Fail => Fail
    case Ok(more, rest) => Ok(ToExprs(es, more), rest)
  }

  lemma {:induction false} InFrontStep(es: seq<Expr>, e: Expr, more: Exprs)
    ensures ToExprs(es + [e], more) == ToExprs(es, Cons(e, more))
  {
    if es == [] {
      assert (es + [e])[1..] == [];
    } else {
      assert (es + [e])[1..] == es[1..] + [e];
      InFrontStep(es[1..], e, more);
    }
  }

  class Parser {
    var rest: Stream

    constructor (tokens: Stream)
      ensures rest == tokens
    {
      rest := tokens;
    }

    method Consume() returns (t: Token)
      modifies this
      ensures t == Peek(old(rest)) && rest == (if old(rest).End? then End else old(rest).tail)
    {
      t := Peek(rest);
      if rest.Tok? {
        rest := rest.tail;
      }
    }

    method ExpectToken(k: Token) returns (ok: bool)
      modifies this
      ensures ok == Expect(k, old(rest)).Ok?
      ensures ok ==> rest == Expect(k, old(rest)).rest
    {
      ok := rest.Tok? && rest.head == k;
      if ok {
        rest := rest.tail;
      }
    }

    method ConsumeName() returns (n: Option<Name>)
      modifies this
      ensures Agrees(ParseName(old(rest)), n, rest)
    {
      n := None;
      if Peek(rest).TName? {
        n := Some(Peek(rest).name);
        rest := rest.tail;
      }
    }

    method ParseMemberPath() returns (p: Option<Names>)
      modifies this
      ensures Agrees(ParsePath(old(rest)), p, rest)
      decreases Len(rest)
    {
      var dot := ExpectToken(TDot);
      if !dot { return None; }
      var n := ConsumeName();
      if n.None? { return None; }
      if Peek(rest) != TDot { return Some(One(n.value)); }
      var more := ParseMemberPath();
      if more.None? { return None; }
      p := Some(Many(n.value, more.value));
    }

    /** Expressions separated by commas. */
    method ParseExprList() returns (es: Option<Exprs>)
      modifies this
      ensures Agrees(ParseSome(old(rest)), es, rest)
      decreases Len(rest), 4
    {
      ghost var start := rest;
      var parts: seq<Expr> := [];
      while true
        invariant ParseSome(start) == InFront(parts, ParseSome(rest))
        invariant Len(rest) <= Len(start)
        decreases Len(rest)
      {
        ghost var here := rest;
        var e := ParseExprAtPrecedence(0);
        if e.None? { return None; }
        InFrontStep(parts, e.value, Nil);
        if Peek(rest) != TComma {
          return Some(ToExprs(parts + [e.value], Nil));
        }
        rest := rest.tail;
        ghost var more := ParseSome(rest);
        if more.Ok? {
          InFrontStep(parts, e.value, more.value);
        }
        parts := parts + [e.value];
      }
    }

    method ParseExprsUntil(close: Token) returns (es: Option<Exprs>)
      modifies this
      ensures Agrees(ParseList(close, old(rest)), es, rest)
      decreases Len(rest), 5
    {
      es := Some(Nil);
      if Peek(rest) != close {
        es := ParseExprList();
        if es.None? { return; }
      }
      var ok := ExpectToken(close);
      if !ok { es := None; }
    }

    method ParseExprClosed(close: Token) returns (e: Option<Expr>)
      modifies this
      ensures Agrees(ParseClosed(close, old(rest)), e, rest)
      decreases Len(rest), 4
    {
      e := ParseExprAtPrecedence(0);
      if e.None? { return; }
      var ok := ExpectToken(close);
      if !ok { e := None; }
    }

    /** After `(Type)(`. */
    method ParseStructCast(typeName: string) returns (e: Option<Expr>)
      modifies this
      ensures Agrees(ParseCast(typeName, old(rest)), e, rest)
      decreases Len(rest), 5
    {
      var x := ParseExprClosed(TRParen);
      if x.None? { return None; }
      var p := ParseMemberPath();
      if p.None? { return None; }
      return Some(Cast(typeName, x.value, p.value));
    }

    /** After `(`: a struct cast or a parenthesised expression. */
    method ParseParenthesized() returns (e: Option<Expr>)
      modifies this
      ensures Agrees(ParseParen(old(rest)), e, rest)
      decreases Len(rest), 6
    {
      if IsCastStart(rest) {
        var typeName := rest.head.name.text;
        rest := CastBody(rest);
        e := ParseStructCast(typeName);
        return;
      }
      e := ParseExprClosed(TRParen);
      if e.Some? { e := Some(Paren(e.value)); }
    }

    method ParseElseBranch() returns (x: Option<MaybeExpr>)
      modifies this
      ensures Agrees(ParseElse(old(rest)), x, rest)
      decreases Len(rest), 4
    {
      if Peek(rest) != TElse { return Some(Absent); }
      rest := rest.tail;
      var e := ParseExprAtPrecedence(LOGICAL_OR);
      x := if e.None? then None else Some(Present(e.value));
    }

    /** After the condition. */
    method ParseIfBranches(c: Expr) returns (e: Option<Expr>)
      modifies this
      ensures Agrees(ParseBranches(c, old(rest)), e, rest)
      decreases Len(rest), 4
    {
      var t := ParseExprAtPrecedence(LOGICAL_OR);
      if t.None? { return None; }
      var x := ParseElseBranch();
      e := if x.None? then None else Some(IfElse(c, t.value, x.value));
    }

    /** After `if`. */
    method ParseIfExpr() returns (e: Option<Expr>)
      modifies this
      ensures Agrees(ParseIf(old(rest)), e, rest)
      decreases Len(rest), 5
    {
      var open := ExpectToken(TLParen);
      if !open { return None; }
      e := ParseExprClosed(TRParen);
      if e.Some? {
        e := ParseIfBranches(e.value);
      }
    }

    method ParseNudExpr() returns (e: Option<Expr>)
      modifies this
      ensures Agrees(ParseNud(old(rest)), e, rest)
      decreases Len(rest), 1
    {
      if rest.End? { return None; }
      var k := Consume();
      if IsLeafToken(k) {
        e := Some(Atom(LeafFor(k)));
      } else if k == TLParen {
        e := ParseParenthesized();
      } else if k == TLBrace || k == TDotLBrace {
        var es := ParseExprsUntil(TRBrace);
        e := if es.None? then None else Some(Concat(k == TDotLBrace, es.value));
      } else if IsPrefixToken(k) {
        var x := ParseExprAtPrecedence(MULTIPLICATIVE);
        e := if x.None? then None else Some(Prefix(PrefixOpFor(k), x.value));
      } else if k == TIf {
        e := ParseIfExpr();
      } else {
        e := None;
      }
    }

    method ParseBracket() returns (t: Option<PostfixTail>)
      modifies this
      ensures Agrees(ParseSlice(old(rest)), t, rest)
      decreases Len(rest), 5
    {
      var hi := ParseExprAtPrecedence(0);
      if hi.None? { return None; }
      if Peek(rest) == TColon {
        rest := rest.tail;
        var lo := ParseExprClosed(TRBracket);
        if lo.None? { return None; }
        return Some(Slice(hi.value, Present(lo.value)));
      }
      var ok := ExpectToken(TRBracket);
      t := if ok then Some(Slice(hi.value, Absent)) else None;
    }

    method ParsePostfixForm() returns (t: Option<PostfixTail>)
      requires IsPostfixStart(Peek(rest))
      modifies this
      ensures Agrees(ParseTail(old(rest)), t, rest)
      decreases Len(rest), 0
    {
      var k := Consume();
      if k == TLBracket {
        t := ParseBracket();
      } else if k == TDot {
        var f := ConsumeName();
        t := if f.None? then None else Some(Field(f.value));
      } else {
        var a := ParseExprsUntil(TRParen);
        t := if a.None? then None else Some(Call(a.value));
      }
    }

    /** Wraps `head` in postfix forms while one follows. */
    method ParsePostfix(head: Expr) returns (e: Option<Expr>)
      modifies this
      ensures Agrees(PostfixLoop(head, old(rest)), e, rest)
      decreases Len(rest), 1
    {
      ghost var start := rest;
      var lhs := head;
      while IsPostfixStart(Peek(rest))
        invariant PostfixLoop(head, start) == PostfixLoop(lhs, rest)
        invariant Len(rest) <= Len(start)
        decreases Len(rest)
      {
        var t := ParsePostfixForm();
        if t.None? { return None; }
        lhs := Postfix(lhs, t.value);
      }
      e := Some(lhs);
    }

    method ParsePrimary() returns (e: Option<Expr>)
      modifies this
      ensures Agrees(ParsePrim(old(rest)), e, rest)
      decreases Len(rest), 2
    {
      e := ParseNudExpr();
      if e.Some? {
        e := ParsePostfix(e.value);
      }
    }

    /** After `?`. */
    method ParseChoice() returns (t: Option<LedTail>)
      modifies this
      ensures Agrees(ParseTernary(old(rest)), t, rest)
      decreases Len(rest), 4
    {
      var y := ParseExprAtPrecedence(CONDITIONAL);
      if y.None? { return None; }
      var ok := ExpectToken(TColon);
      if !ok { return None; }
      var n := ParseExprAtPrecedence(CONDITIONAL);
      t := if n.None? then None else Some(Ternary(y.value, n.value));
    }

    /** One operator with its right operand. */
    method ParseOperator() returns (t: Option<LedTail>)
      requires LedPrec(Peek(rest)) != 0
      modifies this
      ensures Agrees(ParseLed(old(rest)), t, rest)
      decreases Len(rest), 0
    {
      var k := Consume();
      if k == THash {
        var x := ParsePrimary();
        t := if x.None? then None else Some(SignExtend(x.value));
      } else if k == TApostrophe {
        var open := ExpectToken(TLParen);
        if !open { return None; }
        var x := ParseExprClosed(TRParen);
        t := if x.None? then None else Some(ZeroExtend(x.value));
      } else if k.TStep? {
        t := Some(PostStep(k.inc));
      } else if k == TQuestion {
        t := ParseChoice();
      } else {
        var r := ParseExprAtPrecedence(Prec(k.op) + 1);
        t := if r.None? then None else Some(Infix(k.op, r.value));
      }
    }

    method ParseRepeatForm(head: Expr) returns (e: Option<Expr>)
      modifies this
      ensures Agrees(ParseRepeat(head, old(rest)), e, rest)
      decreases Len(rest), 1
    {
      if Peek(rest) != TLBrace { return Some(head); }
      rest := rest.tail;
      var b := ParseExprClosed(TRBrace);
      e := if b.None? then None else Some(Repeat(head, b.value));
    }

    /** The Pratt loop: takes operators while they are at or above the floor. */
    method ParseOperators(head: Expr, floor: int) returns (e: Option<Expr>)
      modifies this
      ensures Agrees(LedLoop(head, floor, old(rest)), e, rest)
      decreases Len(rest), 1
    {
      ghost var start := rest;
      var lhs := head;
      while Continues(Peek(rest), floor)
        invariant LedLoop(head, floor, start) == LedLoop(lhs, floor, rest)
        invariant Len(rest) <= Len(start)
        decreases Len(rest)
      {
        var t := ParseOperator();
        if t.None? { return None; }
        lhs := Led(lhs, t.value);
      }
      e := Some(lhs);
    }

    /**
     Main result: parsing at a floor agrees with the function, so what
     `PrattParser` proves holds of the object: it succeeds with `e` exactly
     when `e` is the well-formed reading of the tokens it consumed.
     */
    method ParseExprAtPrecedence(floor: int) returns (e: Option<Expr>)
      modifies this
      ensures Agrees(ParseExpr(floor, old(rest)), e, rest)
      decreases Len(rest), 3
    {
      e := ParsePrimary();
      if e.None? { return; }
      e := ParseRepeatForm(e.value);
      if e.None? { return; }
      e := ParseOperators(e.value, floor);
    }
  }
}
