/**
 The expression parser of lib/Parse/ParseExpr.cpp as functions on the rest of
 the token stream, and the two theorems that tie it to `ExprSyntax`: it builds
 only well-formed trees of the tokens it consumed, and it finds every such tree.
 */
module PrattParser {
  import opened ExprSyntax

  datatype Parsed<T> = Ok(value: T, rest: Stream) | Fail

  function Expect(k: Token, ts: Stream): (r: Parsed<()>)
    ensures r.Ok? ==> Len(r.rest) < Len(ts)
  {
    if ts.Tok? && ts.head == k then Ok((), ts.tail) else Fail
  }

  function ParseName(ts: Stream): (r: Parsed<Name>)
    ensures r.Ok? ==> Len(r.rest) < Len(ts)
  {
    if ts.Tok? && ts.head.TName? then Ok(ts.head.name, ts.tail) else Fail
  }

  /** `Type ) (` after an opening parenthesis. */
  predicate IsCastStart(ts: Stream) {
    && Peek(ts).TName? && Peek(ts).name.Word?
    && Peek(ts.tail) == TRParen
    && Peek(ts.tail.tail) == TLParen
  }

  /** The tokens after `Type ) (`. */
  function CastBody(ts: Stream): (r: Stream)
    requires IsCastStart(ts)
    ensures Len(r) < Len(ts)
  {
    assert Len(ts) == 1 + Len(ts.tail) && Len(ts.tail) == 1 + Len(ts.tail.tail);
    ts.tail.tail.tail
  }

  function ParsePath(ts: Stream): (r: Parsed<Names>)
    ensures r.Ok? ==> Len(r.rest) < Len(ts)
    decreases Len(ts)
  {
    var d := Expect(TDot, ts);
    if d.Fail? then Fail else
    var n := ParseName(d.rest);
    if n.Fail? then Fail else
    if Peek(n.rest) != TDot then Ok(One(n.value), n.rest) else
    var more := ParsePath(n.rest);
    if more.Fail? then Fail else Ok(Many(n.value, more.value), more.rest)
  }

  /** Expressions separated by commas: one or more. */
  function ParseSome(ts: Stream): (r: Parsed<Exprs>)
    ensures r.Ok? ==> Len(r.rest) < Len(ts) && r.value.Cons?
    decreases Len(ts), 4
  {
    var e := ParseExpr(0, ts);
    if e.Fail? then Fail else
    if Peek(e.rest) != TComma then Ok(Cons(e.value, Nil), e.rest) else
    var more := ParseSome(e.rest.tail);
    if more.Fail? then Fail else Ok(Cons(e.value, more.value), more.rest)
  }

  /** Expressions up to a closing token: none or more. */
  function ParseList(close: Token, ts: Stream): (r: Parsed<Exprs>)
    ensures r.Ok? ==> Len(r.rest) < Len(ts)
    decreases Len(ts), 5
  {
    var es := if Peek(ts) == close then Ok(Nil, ts) else ParseSome(ts);
    if es.Fail? then Fail else
    var c := Expect(close, es.rest);
    if c.Fail? then Fail else Ok(es.value, c.rest)
  }

  /** `e close`. */
  function ParseClosed(close: Token, ts: Stream): (r: Parsed<Expr>)
    ensures r.Ok? ==> Len(r.rest) < Len(ts)
    decreases Len(ts), 4
  {
    var e := ParseExpr(0, ts);
    if e.Fail? then Fail else
    var c := Expect(close, e.rest);
    if c.Fail? then Fail else Ok(e.value, c.rest)
  }

  /** What follows `( Type ) (`. */
  function ParseCast(typeName: string, ts: Stream): (r: Parsed<Expr>)
    ensures r.Ok? ==> Len(r.rest) < Len(ts)
    decreases Len(ts), 5
  {
    var e := ParseClosed(TRParen, ts);
    if e.Fail? then Fail else
    var p := ParsePath(e.rest);
    if p.Fail? then Fail else Ok(Cast(typeName, e.value, p.value), p.rest)
  }

  /** An `else` branch, or nothing: the missing branch is reported as a diagnostic, not a failure. */
  function ParseElse(ts: Stream): (r: Parsed<MaybeExpr>)
    ensures r.Ok? ==> Len(r.rest) <= Len(ts)
    decreases Len(ts), 4
  {
    if Peek(ts) != TElse then Ok(Absent, ts) else
    var x := ParseExpr(LOGICAL_OR, ts.tail);
    if x.Fail? then Fail else Ok(Present(x.value), x.rest)
  }

  /** What follows the parenthesised condition. */
  function ParseBranches(c: Expr, ts: Stream): (r: Parsed<Expr>)
    ensures r.Ok? ==> Len(r.rest) < Len(ts)
    decreases Len(ts), 4
  {
    var t := ParseExpr(LOGICAL_OR, ts);
    if t.Fail? then Fail else
    var x := ParseElse(t.rest);
    if x.Fail? then Fail else Ok(IfElse(c, t.value, x.value), x.rest)
  }

  /** What follows `if`. */
  function ParseIf(ts: Stream): (r: Parsed<Expr>)
    ensures r.Ok? ==> Len(r.rest) < Len(ts)
    decreases Len(ts), 5
  {
    var open := Expect(TLParen, ts);
    if open.Fail? then Fail else
    var c := ParseClosed(TRParen, open.rest);
    if c.Fail? then Fail else ParseBranches(c.value, c.rest)
  }

  /** What follows `(`. */
  function ParseParen(ts: Stream): (r: Parsed<Expr>)
    ensures r.Ok? ==> Len(r.rest) < Len(ts)
    decreases Len(ts), 6
  {
    if IsCastStart(ts) then ParseCast(ts.head.name.text, CastBody(ts))
    else
      var e := ParseClosed(TRParen, ts);
      if e.Fail? then Fail else Ok(Paren(e.value), e.rest)
  }

  predicate IsPrefixToken(k: Token) {
    IsUnaryToken(k) || k.TStep?
  }

  function PrefixOpFor(k: Token): PrefixOp
    requires IsPrefixToken(k)
  {
    if k.TStep? then PreStep(k.inc) else Unary(UnaryOpFor(k))
  }

  predicate IsLeafToken(k: Token) {
    k.TLiteral? || k.TName? || k.TSystem?
  }

  function LeafFor(k: Token): Leaf
    requires IsLeafToken(k)
  {
    match k
    case TLiteral(kind, text) => Literal(kind, text)
    case TName(n) => Ident(n)
    case TSystem(t) => SysVar(t)
  }

  function ParseNud(ts: Stream): (r: Parsed<Expr>)
    ensures r.Ok? ==> Len(r.rest) < Len(ts)
    decreases Len(ts), 1
  {
    if ts.End? then Fail else
    var k, after := ts.head, ts.tail;
    if IsLeafToken(k) then Ok(Atom(LeafFor(k)), after)
    else if k == TLParen then ParseParen(after)
    else if k == TLBrace || k == TDotLBrace then
      var es := ParseList(TRBrace, after);
      if es.Fail? then Fail else Ok(Concat(k == TDotLBrace, es.value), es.rest)
    else if IsPrefixToken(k) then
      var e := ParseExpr(MULTIPLICATIVE, after);
      if e.Fail? then Fail else Ok(Prefix(PrefixOpFor(k), e.value), e.rest)
    else if k == TIf then ParseIf(after)
    else Fail
  }

  /** What follows `[`. */
  function ParseSlice(ts: Stream): (r: Parsed<PostfixTail>)
    ensures r.Ok? ==> Len(r.rest) < Len(ts)
    decreases Len(ts), 5
  {
    var hi := ParseExpr(0, ts);
    if hi.Fail? then Fail else
    if Peek(hi.rest) == TColon then
      var lo := ParseClosed(TRBracket, hi.rest.tail);
      if lo.Fail? then Fail else Ok(Slice(hi.value, Present(lo.value)), lo.rest)
    else
      var c := Expect(TRBracket, hi.rest);
      if c.Fail? then Fail else Ok(Slice(hi.value, Absent), c.rest)
  }

  /** One postfix form. */
  function ParseTail(ts: Stream): (r: Parsed<PostfixTail>)
    requires IsPostfixStart(Peek(ts))
    ensures r.Ok? ==> Len(r.rest) < Len(ts)
    decreases Len(ts), 0
  {
    if ts.head == TLBracket then ParseSlice(ts.tail)
    else if ts.head == TDot then
      var f := ParseName(ts.tail);
      if f.Fail? then Fail else Ok(Field(f.value), f.rest)
    else
      var a := ParseList(TRParen, ts.tail);
      if a.Fail? then Fail else Ok(Call(a.value), a.rest)
  }

  function PostfixLoop(head: Expr, ts: Stream): (r: Parsed<Expr>)
    ensures r.Ok? ==> Len(r.rest) <= Len(ts)
    decreases Len(ts), 1
  {
    if !IsPostfixStart(Peek(ts)) then Ok(head, ts) else
    var t := ParseTail(ts);
    if t.Fail? then Fail else PostfixLoop(Postfix(head, t.value), t.rest)
  }

  /** A nud and its postfix tail. */
  function ParsePrim(ts: Stream): (r: Parsed<Expr>)
    ensures r.Ok? ==> Len(r.rest) < Len(ts)
    decreases Len(ts), 2
  {
    var n := ParseNud(ts);
    if n.Fail? then Fail else PostfixLoop(n.value, n.rest)
  }

  /** What follows `?`. */
  function ParseTernary(ts: Stream): (r: Parsed<LedTail>)
    ensures r.Ok? ==> Len(r.rest) < Len(ts)
    decreases Len(ts), 4
  {
    var y := ParseExpr(CONDITIONAL, ts);
    if y.Fail? then Fail else
    var c := Expect(TColon, y.rest);
    if c.Fail? then Fail else
    var n := ParseExpr(CONDITIONAL, c.rest);
    if n.Fail? then Fail else Ok(Ternary(y.value, n.value), n.rest)
  }

  /** What follows the zero-extend apostrophe. */
  function ParseZeroExtend(ts: Stream): (r: Parsed<LedTail>)
    ensures r.Ok? ==> Len(r.rest) < Len(ts)
    decreases Len(ts), 5
  {
    var open := Expect(TLParen, ts);
    if open.Fail? then Fail else
    var x := ParseClosed(TRParen, open.rest);
    if x.Fail? then Fail else Ok(ZeroExtend(x.value), x.rest)
  }

  /** An operator with what follows it. */
  function ParseLed(ts: Stream): (r: Parsed<LedTail>)
    requires LedPrec(Peek(ts)) != 0
    ensures r.Ok? ==> Len(r.rest) < Len(ts)
    decreases Len(ts), 0
  {
    var k, after := ts.head, ts.tail;
    if k == THash then
      var x := ParsePrim(after);
      if x.Fail? then Fail else Ok(SignExtend(x.value), x.rest)
    else if k == TApostrophe then ParseZeroExtend(after)
    else if k.TStep? then Ok(PostStep(k.inc), after)
    else if k == TQuestion then ParseTernary(after)
    else
      var r := ParseExpr(Prec(k.op) + 1, after);
      if r.Fail? then Fail else Ok(Infix(k.op, r.value), r.rest)
  }

  function LedLoop(lhs: Expr, floor: int, ts: Stream): (r: Parsed<Expr>)
    ensures r.Ok? ==> Len(r.rest) <= Len(ts)
    decreases Len(ts), 1
  {
    if !Continues(Peek(ts), floor) then Ok(lhs, ts) else
    var t := ParseLed(ts);
    if t.Fail? then Fail else LedLoop(Led(lhs, t.value), floor, t.rest)
  }

  /** `count { body }` when a brace follows the head. */
  function ParseRepeat(head: Expr, ts: Stream): (r: Parsed<Expr>)
    ensures r.Ok? ==> Len(r.rest) <= Len(ts)
    decreases Len(ts), 0
  {
    if Peek(ts) != TLBrace then Ok(head, ts) else
    var b := ParseClosed(TRBrace, ts.tail);
    if b.Fail? then Fail else Ok(Repeat(head, b.value), b.rest)
  }

  function ParseExpr(floor: int, ts: Stream): (r: Parsed<Expr>)
    ensures r.Ok? ==> Len(r.rest) < Len(ts)
    decreases Len(ts), 3
  {
    var p := ParsePrim(ts);
    if p.Fail? then Fail else
    var h := ParseRepeat(p.value, p.rest);
    if h.Fail? then Fail else LedLoop(h.value, floor, h.rest)
  }

  // ----- Soundness -----

  /** `r` is a correct outcome of a parse at this floor. */
  ghost predicate SoundExpr(floor: int, ts: Stream, r: Parsed<Expr>) {
    match r
    case Fail => true
    case Ok(e, rest) => ts == Emit(e, rest) && WellFormed(e, floor) && StopsAt(e, floor, Peek(rest))
  }

  ghost predicate SoundClosed(close: Token, ts: Stream, r: Parsed<Expr>) {
    match r
    case Fail => true
    case Ok(e, rest) => ts == Emit(e, Tok(close, rest)) && WellFormed(e, 0)
  }

  ghost predicate SoundList(close: Token, ts: Stream, r: Parsed<Exprs>) {
    match r
    case Fail => true
    case Ok(es, rest) => ts == EmitList(es, Tok(close, rest)) && AllWellFormed(es)
  }

  ghost predicate SoundNud(ts: Stream, r: Parsed<Expr>) {
    match r
    case Fail => true
    case Ok(e, rest) => ts == Emit(e, rest) && IsNud(e) && WellFormed(e, 0) && Stops(e, Peek(rest))
  }

  ghost predicate SoundPrim(ts: Stream, r: Parsed<Expr>) {
    match r
    case Fail => true
    case Ok(e, rest) =>
      ts == Emit(e, rest) && IsPrim(e) && WellFormed(e, 0) && Stops(e, Peek(rest)) && !IsPostfixStart(Peek(rest))
  }

  ghost predicate SoundTail(ts: Stream, r: Parsed<PostfixTail>) {
    match r
    case Fail => true
    case Ok(t, rest) => ts == EmitTail(t, rest) && TailWellFormed(t)
  }

  ghost predicate SoundLed(ts: Stream, r: Parsed<LedTail>) {
    match r
    case Fail => true
    case Ok(t, rest) => ts == EmitLed(t, rest) && LedWellFormed(t) && LedStops(t, Peek(rest))
  }

  lemma {:induction false} PathSound(ts: Stream)
    ensures
      var r := ParsePath(ts);
      r.Ok? ==> ts == EmitPath(r.value, r.rest) && Peek(r.rest) != TDot
    decreases Len(ts)
  {
    var d := Expect(TDot, ts);
    if d.Ok? {
      var n := ParseName(d.rest);
      if n.Ok? && Peek(n.rest) == TDot {
        PathSound(n.rest);
      }
    }
  }

  lemma {:induction false} ClosedSound(close: Token, ts: Stream)
    ensures SoundClosed(close, ts, ParseClosed(close, ts))
    decreases Len(ts), 4
  {
    ExprSound(0, ts);
  }

  lemma {:induction false} SomeSound(ts: Stream)
    ensures
      var r := ParseSome(ts);
      r.Ok? ==> ts == EmitList(r.value, r.rest) && AllWellFormed(r.value)
    decreases Len(ts), 4
  {
    ExprSound(0, ts);
    var e := ParseExpr(0, ts);
    if e.Ok? && Peek(e.rest) == TComma {
      SomeSound(e.rest.tail);
    }
  }

  lemma {:induction false} ListSound(close: Token, ts: Stream)
    ensures SoundList(close, ts, ParseList(close, ts))
    decreases Len(ts), 5
  {
    if Peek(ts) != close {
      SomeSound(ts);
    }
  }

  lemma {:induction false} CastSound(ts: Stream)
    requires IsCastStart(ts)
    ensures SoundNud(Tok(TLParen, ts), ParseCast(ts.head.name.text, CastBody(ts)))
    decreases Len(ts), 5
  {
    var after := CastBody(ts);
    ClosedSound(TRParen, after);
    var e := ParseClosed(TRParen, after);
    if e.Ok? {
      PathSound(e.rest);
    }
  }

  /** A parenthesised name is a cast only when another parenthesis follows. */
  lemma {:induction false} ParenSound(ts: Stream)
    ensures SoundNud(Tok(TLParen, ts), ParseParen(ts))
    decreases Len(ts), 6
  {
    if IsCastStart(ts) {
      CastSound(ts);
    } else {
      ClosedSound(TRParen, ts);
      var e := ParseClosed(TRParen, ts);
      if e.Ok? && IsPlainName(e.value) {
        assert ts == Tok(TName(e.value.leaf.name), Tok(TRParen, e.rest));
      }
    }
  }

  ghost predicate SoundElse(t: Expr, ts: Stream, r: Parsed<MaybeExpr>) {
    match r
    case Fail => true
    case Ok(Absent, rest) => ts == rest && Peek(rest) != TElse && StopsAt(t, LOGICAL_OR, Peek(rest))
    case Ok(Present(x), rest) =>
      && ts == Tok(TElse, Emit(x, rest)) && StopsAt(t, LOGICAL_OR, TElse)
      && WellFormed(x, LOGICAL_OR) && StopsAt(x, LOGICAL_OR, Peek(rest))
  }

  lemma {:induction false} ElseSound(t: Expr, ts: Stream)
    requires StopsAt(t, LOGICAL_OR, Peek(ts))
    ensures SoundElse(t, ts, ParseElse(ts))
    decreases Len(ts), 4
  {
    if Peek(ts) == TElse {
      ExprSound(LOGICAL_OR, ts.tail);
    }
  }

  lemma {:induction false} BranchesNode(c: Expr, t: Expr, ts: Stream, x: Parsed<MaybeExpr>)
    requires WellFormed(c, 0) && WellFormed(t, LOGICAL_OR) && SoundElse(t, ts, x) && x.Ok?
    ensures SoundNud(Tok(TIf, Tok(TLParen, Emit(c, Tok(TRParen, Emit(t, ts))))), Ok(IfElse(c, t, x.value), x.rest))
  {
  }

  lemma {:induction false} BranchesSound(c: Expr, ts: Stream)
    requires WellFormed(c, 0)
    ensures SoundNud(Tok(TIf, Tok(TLParen, Emit(c, Tok(TRParen, ts)))), ParseBranches(c, ts))
    decreases Len(ts), 4
  {
    ExprSound(LOGICAL_OR, ts);
    var t := ParseExpr(LOGICAL_OR, ts);
    if t.Ok? {
      ElseSound(t.value, t.rest);
      var x := ParseElse(t.rest);
      if x.Ok? {
        BranchesNode(c, t.value, t.rest, x);
      }
    }
  }

  lemma {:induction false} IfSound(ts: Stream)
    ensures SoundNud(Tok(TIf, ts), ParseIf(ts))
    decreases Len(ts), 5
  {
    var open := Expect(TLParen, ts);
    if open.Ok? {
      ClosedSound(TRParen, open.rest);
      var c := ParseClosed(TRParen, open.rest);
      if c.Ok? {
        BranchesSound(c.value, c.rest);
      }
    }
  }

  lemma {:induction false} PrefixOpBack(k: Token)
    requires IsPrefixToken(k)
    ensures PrefixToken(PrefixOpFor(k)) == k
  {
    if IsUnaryToken(k) {
      UnaryTokenBack(k);
    }
  }

  lemma {:induction false} PrefixSound(ts: Stream)
    requires ts.Tok? && IsPrefixToken(ts.head)
    ensures SoundNud(ts, ParseNud(ts))
    decreases Len(ts), 0
  {
    PrefixOpBack(ts.head);
    ExprSound(MULTIPLICATIVE, ts.tail);
  }

  lemma {:induction false} NudSound(ts: Stream)
    ensures SoundNud(ts, ParseNud(ts))
    decreases Len(ts), 1
  {
    if ts.Tok? {
      var k, after := ts.head, ts.tail;
      if k == TLParen {
        ParenSound(after);
      } else if k == TLBrace || k == TDotLBrace {
        ListSound(TRBrace, after);
      } else if IsPrefixToken(k) {
        PrefixSound(ts);
      } else if k == TIf {
        IfSound(after);
      }
    }
  }

  lemma {:induction false} SliceSound(ts: Stream)
    ensures SoundTail(Tok(TLBracket, ts), ParseSlice(ts))
    decreases Len(ts), 5
  {
    ExprSound(0, ts);
    var hi := ParseExpr(0, ts);
    if hi.Ok? && Peek(hi.rest) == TColon {
      ClosedSound(TRBracket, hi.rest.tail);
    }
  }

  lemma {:induction false} TailSound(ts: Stream)
    requires IsPostfixStart(Peek(ts))
    ensures SoundTail(ts, ParseTail(ts))
    ensures ParseTail(ts).Ok? ==> TailToken(ParseTail(ts).value) == ts.head
    decreases Len(ts), 0
  {
    if ts.head == TLBracket {
      SliceSound(ts.tail);
    } else if ts.head == TLParen {
      ListSound(TRParen, ts.tail);
    }
  }

  lemma {:induction false} PostfixSound(head: Expr, ts: Stream)
    requires IsPrim(head) && WellFormed(head, 0) && Stops(head, Peek(ts))
    ensures SoundPrim(Emit(head, ts), PostfixLoop(head, ts))
    decreases Len(ts), 1
  {
    if IsPostfixStart(Peek(ts)) {
      TailSound(ts);
      var t := ParseTail(ts);
      if t.Ok? {
        PostfixSound(Postfix(head, t.value), t.rest);
      }
    }
  }

  lemma {:induction false} PrimSound(ts: Stream)
    ensures SoundPrim(ts, ParsePrim(ts))
    decreases Len(ts), 2
  {
    NudSound(ts);
    var n := ParseNud(ts);
    if n.Ok? {
      PostfixSound(n.value, n.rest);
    }
  }

  lemma {:induction false} TernarySound(ts: Stream)
    ensures SoundLed(Tok(TQuestion, ts), ParseTernary(ts))
    decreases Len(ts), 4
  {
    ExprSound(CONDITIONAL, ts);
    var y := ParseExpr(CONDITIONAL, ts);
    if y.Ok? {
      var c := Expect(TColon, y.rest);
      if c.Ok? {
        ExprSound(CONDITIONAL, c.rest);
      }
    }
  }

  lemma {:induction false} ZeroExtendSound(ts: Stream)
    ensures SoundLed(Tok(TApostrophe, ts), ParseZeroExtend(ts))
    decreases Len(ts), 5
  {
    var open := Expect(TLParen, ts);
    if open.Ok? {
      ClosedSound(TRParen, open.rest);
    }
  }

  lemma {:induction false} InfixSound(ts: Stream)
    requires ts.Tok? && ts.head.TInfix?
    ensures SoundLed(ts, ParseLed(ts))
    decreases Len(ts), 0
  {
    ExprSound(Prec(ts.head.op) + 1, ts.tail);
  }

  lemma {:induction false} LedSound(ts: Stream)
    requires LedPrec(Peek(ts)) != 0
    ensures SoundLed(ts, ParseLed(ts))
    decreases Len(ts), 1
  {
    if ts.head == THash {
      PrimSound(ts.tail);
    } else if ts.head == TApostrophe {
      ZeroExtendSound(ts.tail);
    } else if ts.head == TQuestion {
      TernarySound(ts.tail);
    } else if ts.head.TInfix? {
      InfixSound(ts);
    }
  }

  /** The operator a tail was parsed from. */
  lemma {:induction false} LedStart(ts: Stream)
    requires LedPrec(Peek(ts)) != 0
    ensures ParseLed(ts).Ok? ==> LedToken(ParseLed(ts).value) == ts.head
  {
  }

  lemma {:induction false} LedLoopSound(lhs: Expr, floor: int, ts: Stream)
    requires WellFormed(lhs, floor) && Stops(lhs, Peek(ts)) && PastPrim(lhs, Peek(ts))
    ensures SoundExpr(floor, Emit(lhs, ts), LedLoop(lhs, floor, ts))
    decreases Len(ts), 2
  {
    if Continues(Peek(ts), floor) {
      LedSound(ts);
      LedStart(ts);
      var t := ParseLed(ts);
      if t.Ok? {
        LedLoopSound(Led(lhs, t.value), floor, t.rest);
      }
    }
  }

  lemma {:induction false} RepeatSound(head: Expr, floor: int, ts: Stream)
    requires IsPrim(head) && WellFormed(head, 0) && Stops(head, Peek(ts)) && !IsPostfixStart(Peek(ts))
    ensures
      var r := ParseRepeat(head, ts);
      r.Ok? ==>
        && Emit(head, ts) == Emit(r.value, r.rest)
        && WellFormed(r.value, floor) && Stops(r.value, Peek(r.rest)) && PastPrim(r.value, Peek(r.rest))
    decreases Len(ts), 1
  {
    PrimFloor(head, 0, floor);
    if Peek(ts) == TLBrace {
      ClosedSound(TRBrace, ts.tail);
    }
  }

  /**
   Main result: a successful parse consumed exactly the tokens of its tree, the
   tree is well formed at the floor, and nothing open takes the next token.
   */
  lemma {:induction false} ExprSound(floor: int, ts: Stream)
    ensures SoundExpr(floor, ts, ParseExpr(floor, ts))
    decreases Len(ts), 3
  {
    PrimSound(ts);
    var p := ParsePrim(ts);
    if p.Ok? {
      RepeatSound(p.value, floor, p.rest);
      var h := ParseRepeat(p.value, p.rest);
      if h.Ok? {
        LedLoopSound(h.value, floor, h.rest);
      }
    }
  }

  // ----- Completeness -----

  lemma {:induction false} PathComplete(p: Names, rest: Stream)
    requires Peek(rest) != TDot
    ensures ParsePath(EmitPath(p, rest)) == Ok(p, rest)
  {
    if p.Many? {
      PathComplete(p.rest, rest);
    }
  }

  lemma {:induction false} ClosedComplete(e: Expr, close: Token, rest: Stream)
    requires WellFormed(e, 0) && IsCloser(close)
    ensures ParseClosed(close, Emit(e, Tok(close, rest))) == Ok(e, rest)
    decreases e, 7
  {
    ClosersStop(e, close);
    ExprComplete(e, 0, Tok(close, rest));
  }

  lemma {:induction false} SomeComplete(es: Exprs, rest: Stream)
    requires es.Cons? && AllWellFormed(es) && IsCloser(Peek(rest)) && Peek(rest) != TComma
    ensures ParseSome(EmitList(es, rest)) == Ok(es, rest)
    decreases es, 4
  {
    if es.more.Nil? {
      ClosersStop(es.first, Peek(rest));
      ExprComplete(es.first, 0, rest);
    } else {
      ClosersStop(es.first, TComma);
      ExprComplete(es.first, 0, Tok(TComma, EmitList(es.more, rest)));
      SomeComplete(es.more, rest);
    }
  }

  /** No tree starts with a closing token. */
  lemma {:induction false} StartsOpen(e: Expr, rest: Stream)
    ensures !IsCloser(Peek(Emit(e, rest)))
    decreases e
  {
    match e
    case Postfix(h, t) => StartsOpen(h, EmitTail(t, rest));
    case Repeat(c, b) => StartsOpen(c, Tok(TLBrace, Emit(b, Tok(TRBrace, rest))));
    case Led(l, t) => StartsOpen(l, EmitLed(t, rest));
    case _ =>
  }

  lemma {:induction false} ListStartsOpen(es: Exprs, rest: Stream)
    requires es.Cons?
    ensures !IsCloser(Peek(EmitList(es, rest)))
  {
    StartsOpen(es.first, if es.more.Nil? then rest else Tok(TComma, EmitList(es.more, rest)));
  }

  lemma {:induction false} ListOpens(es: Exprs, close: Token, ts: Stream, rest: Stream)
    requires Peek(ts) != close && ParseSome(ts) == Ok(es, Tok(close, rest))
    ensures ParseList(close, ts) == Ok(es, rest)
  {
  }

  lemma {:induction false} ListComplete(es: Exprs, close: Token, rest: Stream)
    requires AllWellFormed(es) && IsCloser(close) && close != TComma
    ensures ParseList(close, EmitList(es, Tok(close, rest))) == Ok(es, rest)
    decreases es, 5
  {
    if es.Cons? {
      ListStartsOpen(es, Tok(close, rest));
      SomeComplete(es, Tok(close, rest));
      ListOpens(es, close, EmitList(es, Tok(close, rest)), rest);
    }
  }

  /** A tree whose tokens are a name and then a closing parenthesis is that name. */
  lemma {:induction false} NameThenClose(e: Expr, rest: Stream)
    requires
      var ts := Emit(e, rest);
      Peek(ts).TName? && Peek(ts.tail) == TRParen
    ensures e.Atom? && e.leaf == Ident(Emit(e, rest).head.name) && rest == Emit(e, rest).tail
    decreases e
  {
    match e
    case Postfix(h, t) => NameThenClose(h, EmitTail(t, rest));
    case Repeat(c, b) => NameThenClose(c, Tok(TLBrace, Emit(b, Tok(TRBrace, rest))));
    case Led(l, t) => NameThenClose(l, EmitLed(t, rest));
    case _ =>
  }

  lemma {:induction false} ParenComplete(x: Expr, rest: Stream)
    requires WellFormed(x, 0) && Stops(Paren(x), Peek(rest))
    ensures ParseNud(Emit(Paren(x), rest)) == Ok(Paren(x), rest)
    decreases x, 8
  {
    var ts := Emit(x, Tok(TRParen, rest));
    if IsCastStart(ts) {
      NameThenClose(x, Tok(TRParen, rest));
    }
    ClosedComplete(x, TRParen, rest);
    assert ParseParen(ts) == Ok(Paren(x), rest);
  }

  lemma {:induction false} CastComplete(t: string, x: Expr, p: Names, rest: Stream)
    requires WellFormed(x, 0) && Peek(rest) != TDot
    ensures ParseNud(Emit(Cast(t, x, p), rest)) == Ok(Cast(t, x, p), rest)
    decreases x, 8
  {
    var after := Emit(x, Tok(TRParen, EmitPath(p, rest)));
    ClosedComplete(x, TRParen, EmitPath(p, rest));
    PathComplete(p, rest);
    assert ParseCast(t, after) == Ok(Cast(t, x, p), rest);
    assert CastBody(Tok(TName(Word(t)), Tok(TRParen, Tok(TLParen, after)))) == after;
  }

  lemma {:induction false} ElseComplete(x: MaybeExpr, rest: Stream)
    requires x.Absent? ==> Peek(rest) != TElse
    requires x.Present? ==> WellFormed(x.expr, LOGICAL_OR) && StopsAt(x.expr, LOGICAL_OR, Peek(rest))
    ensures ParseElse(EmitElse(x, rest)) == Ok(x, rest)
    decreases x, 0
  {
    if x.Present? {
      ExprComplete(x.expr, LOGICAL_OR, rest);
    }
  }

  lemma {:induction false} BranchesComplete(c: Expr, t: Expr, x: MaybeExpr, rest: Stream)
    requires WellFormed(t, LOGICAL_OR)
    requires x.Absent? ==> Peek(rest) != TElse && StopsAt(t, LOGICAL_OR, Peek(rest))
    requires x.Present? ==>
      StopsAt(t, LOGICAL_OR, TElse) && WellFormed(x.expr, LOGICAL_OR) && StopsAt(x.expr, LOGICAL_OR, Peek(rest))
    ensures ParseBranches(c, Emit(t, EmitElse(x, rest))) == Ok(IfElse(c, t, x), rest)
    decreases IfElse(c, t, x), 0
  {
    var e := IfElse(c, t, x);
    assert t < e && x < e;
    ExprComplete(t, LOGICAL_OR, EmitElse(x, rest));
    ElseComplete(x, rest);
  }

  lemma {:induction false} IfComplete(e: Expr, rest: Stream)
    requires e.IfElse? && WellFormed(e, 0) && Stops(e, Peek(rest))
    ensures ParseNud(Emit(e, rest)) == Ok(e, rest)
    decreases e, 1
  {
    var after := Emit(e.thenE, EmitElse(e.elseE, rest));
    BranchesComplete(e.cond, e.thenE, e.elseE, rest);
    ClosedComplete(e.cond, TRParen, after);
    IfOpens(e.cond, after, e, rest);
  }

  lemma {:induction false} IfOpens(c: Expr, after: Stream, e: Expr, rest: Stream)
    requires ParseClosed(TRParen, Emit(c, Tok(TRParen, after))) == Ok(c, after)
    requires ParseBranches(c, after) == Ok(e, rest)
    ensures ParseNud(Tok(TIf, Tok(TLParen, Emit(c, Tok(TRParen, after))))) == Ok(e, rest)
  {
    assert ParseIf(Tok(TLParen, Emit(c, Tok(TRParen, after)))) == Ok(e, rest);
  }

  lemma {:induction false} PrefixOpens(op: PrefixOp, ts: Stream, x: Expr, rest: Stream)
    requires ParseExpr(MULTIPLICATIVE, ts) == Ok(x, rest)
    ensures ParseNud(Tok(PrefixToken(op), ts)) == Ok(Prefix(op, x), rest)
  {
  }

  lemma {:induction false} PrefixComplete(op: PrefixOp, x: Expr, rest: Stream)
    requires WellFormed(x, MULTIPLICATIVE) && StopsAt(x, MULTIPLICATIVE, Peek(rest))
    ensures ParseNud(Tok(PrefixToken(op), Emit(x, rest))) == Ok(Prefix(op, x), rest)
    decreases x, 8
  {
    ExprComplete(x, MULTIPLICATIVE, rest);
    PrefixOpens(op, Emit(x, rest), x, rest);
  }

  lemma {:induction false} ConcatOpens(dotted: bool, ts: Stream, es: Exprs, rest: Stream)
    requires ParseList(TRBrace, ts) == Ok(es, rest)
    ensures ParseNud(Tok(if dotted then TDotLBrace else TLBrace, ts)) == Ok(Concat(dotted, es), rest)
  {
  }

  lemma {:induction false} ConcatComplete(dotted: bool, es: Exprs, rest: Stream)
    requires AllWellFormed(es)
    ensures ParseNud(Emit(Concat(dotted, es), rest)) == Ok(Concat(dotted, es), rest)
    decreases es, 6
  {
    ListComplete(es, TRBrace, rest);
    ConcatOpens(dotted, EmitList(es, Tok(TRBrace, rest)), es, rest);
  }

  lemma {:induction false} NudComplete(e: Expr, rest: Stream)
    requires IsNud(e) && WellFormed(e, 0) && Stops(e, Peek(rest))
    ensures ParseNud(Emit(e, rest)) == Ok(e, rest)
    decreases e, 2
  {
    match e
    case Atom(l) => AtomComplete(l, rest);
    case Paren(x) => ParenComplete(x, rest);
    case Cast(t, x, p) => CastComplete(t, x, p, rest);
    case Concat(d, ps) => ConcatComplete(d, ps, rest);
    case Prefix(op, x) => PrefixComplete(op, x, rest);
    case IfElse(_, _, _) => IfComplete(e, rest);
  }

  lemma {:induction false} AtomComplete(l: Leaf, rest: Stream)
    ensures ParseNud(Tok(LeafToken(l), rest)) == Ok(Atom(l), rest)
  {
  }

  lemma {:induction false} TailComplete(t: PostfixTail, rest: Stream)
    requires TailWellFormed(t)
    ensures IsPostfixStart(Peek(EmitTail(t, rest)))
    ensures ParseTail(EmitTail(t, rest)) == Ok(t, rest)
    decreases t, 6
  {
    match t
    case Slice(hi, Absent) =>
      ClosersStop(hi, TRBracket);
      ExprComplete(hi, 0, Tok(TRBracket, rest));
    case Slice(hi, Present(lo)) =>
      ClosersStop(hi, TColon);
      ExprComplete(hi, 0, Tok(TColon, Emit(lo, Tok(TRBracket, rest))));
      ClosedComplete(lo, TRBracket, rest);
    case Field(_) =>
    case Call(a) => ListComplete(a, TRParen, rest);
  }

  /** Parsing a primary reaches the postfix loop with the whole primary built. */
  lemma {:induction false} PrimReaches(e: Expr, rest: Stream)
    requires IsPrim(e) && WellFormed(e, 0) && Stops(e, Peek(rest))
    ensures ParsePrim(Emit(e, rest)) == PostfixLoop(e, rest)
    decreases e, 3
  {
    if e.Postfix? {
      TailComplete(e.tail, rest);
      PrimReaches(e.head, EmitTail(e.tail, rest));
    } else {
      NudComplete(e, rest);
    }
  }

  lemma {:induction false} TernaryComplete(y: Expr, n: Expr, rest: Stream)
    requires WellFormed(y, CONDITIONAL) && WellFormed(n, CONDITIONAL) && StopsAt(n, CONDITIONAL, Peek(rest))
    ensures ParseTernary(Emit(y, Tok(TColon, Emit(n, rest)))) == Ok(Ternary(y, n), rest)
    decreases Ternary(y, n), 5
  {
    var t := Ternary(y, n);
    assert y < t && n < t;
    ClosersStop(y, TColon);
    ExprComplete(y, CONDITIONAL, Tok(TColon, Emit(n, rest)));
    ExprComplete(n, CONDITIONAL, rest);
    TernaryOpens(Emit(y, Tok(TColon, Emit(n, rest))), y, Emit(n, rest), n, rest);
  }

  lemma {:induction false} TernaryOpens(ts: Stream, y: Expr, mid: Stream, n: Expr, rest: Stream)
    requires ParseExpr(CONDITIONAL, ts) == Ok(y, Tok(TColon, mid)) && ParseExpr(CONDITIONAL, mid) == Ok(n, rest)
    ensures ParseTernary(ts) == Ok(Ternary(y, n), rest)
  {
  }

  lemma {:induction false} InfixOpens(op: BinaryOp, ts: Stream, r: Expr, rest: Stream)
    requires ParseExpr(Prec(op) + 1, ts) == Ok(r, rest)
    ensures ParseLed(Tok(TInfix(op), ts)) == Ok(Infix(op, r), rest)
  {
  }

  lemma {:induction false} InfixComplete(op: BinaryOp, r: Expr, rest: Stream)
    requires WellFormed(r, Prec(op) + 1) && StopsAt(r, Prec(op) + 1, Peek(rest))
    ensures ParseLed(Tok(TInfix(op), Emit(r, rest))) == Ok(Infix(op, r), rest)
    decreases r, 7
  {
    ExprComplete(r, Prec(op) + 1, rest);
    InfixOpens(op, Emit(r, rest), r, rest);
  }

  lemma {:induction false} SignExtendComplete(x: Expr, rest: Stream)
    requires IsPrim(x) && WellFormed(x, 0) && Stops(x, Peek(rest)) && !IsPostfixStart(Peek(rest))
    ensures ParseLed(Tok(THash, Emit(x, rest))) == Ok(SignExtend(x), rest)
    decreases x, 6
  {
    PrimReaches(x, rest);
  }

  lemma {:induction false} ZeroExtendComplete(x: Expr, rest: Stream)
    requires WellFormed(x, 0)
    ensures ParseLed(EmitLed(ZeroExtend(x), rest)) == Ok(ZeroExtend(x), rest)
    decreases x, 8
  {
    ClosedComplete(x, TRParen, rest);
    assert ParseZeroExtend(Tok(TLParen, Emit(x, Tok(TRParen, rest)))) == Ok(ZeroExtend(x), rest);
  }

  lemma {:induction false} LedComplete(t: LedTail, rest: Stream)
    requires LedWellFormed(t) && LedStops(t, Peek(rest))
    ensures ParseLed(EmitLed(t, rest)) == Ok(t, rest)
    decreases t, 6
  {
    match t
    case Infix(op, r) => InfixComplete(op, r, rest);
    case Ternary(y, n) => TernaryComplete(y, n, rest);
    case SignExtend(x) => SignExtendComplete(x, rest);
    case ZeroExtend(x) => ZeroExtendComplete(x, rest);
    case PostStep(_) =>
  }

  lemma {:induction false} LedStarts(t: LedTail, rest: Stream)
    ensures Peek(EmitLed(t, rest)) == LedToken(t)
  {
  }

  lemma {:induction false} RepeatReaches(c: Expr, b: Expr, floor: int, rest: Stream)
    requires WellFormed(Repeat(c, b), floor)
    ensures ParseExpr(floor, Emit(Repeat(c, b), rest)) == LedLoop(Repeat(c, b), floor, rest)
    decreases Repeat(c, b), 0
  {
    var e := Repeat(c, b);
    assert c < e && b < e;
    var ts := Tok(TLBrace, Emit(b, Tok(TRBrace, rest)));
    PrimReaches(c, ts);
    ClosedComplete(b, TRBrace, rest);
    assert ParseRepeat(c, ts) == Ok(e, rest);
  }

  lemma {:induction false} PrimReachesLoop(e: Expr, floor: int, rest: Stream)
    requires IsPrim(e) && WellFormed(e, floor) && Stops(e, Peek(rest)) && PastPrim(e, Peek(rest))
    ensures ParseExpr(floor, Emit(e, rest)) == LedLoop(e, floor, rest)
    decreases e, 4
  {
    PrimFloor(e, floor, 0);
    PrimReaches(e, rest);
  }

  /** Parsing at a floor reaches the operator loop with the whole tree built. */
  lemma {:induction false} ExprReaches(e: Expr, floor: int, rest: Stream)
    requires WellFormed(e, floor) && Stops(e, Peek(rest)) && PastPrim(e, Peek(rest))
    ensures ParseExpr(floor, Emit(e, rest)) == LedLoop(e, floor, rest)
    decreases e, 5
  {
    match e
    case Led(l, t) =>
      LedComplete(t, rest);
      LedStarts(t, rest);
      ExprReaches(l, floor, EmitLed(t, rest));
    case Repeat(c, b) =>
      RepeatReaches(c, b, floor, rest);
    case _ =>
      PrimReachesLoop(e, floor, rest);
  }

  /** Main result: every well-formed tree is what its tokens parse to. */
  lemma {:induction false} ExprComplete(e: Expr, floor: int, rest: Stream)
    requires WellFormed(e, floor) && StopsAt(e, floor, Peek(rest))
    ensures ParseExpr(floor, Emit(e, rest)) == Ok(e, rest)
    decreases e, 6
  {
    ExprReaches(e, floor, rest);
  }

  /** Main result: the parser accepts exactly the well-formed readings of its input. */
  lemma {:induction false} ParsesIff(floor: int, ts: Stream, e: Expr, rest: Stream)
    ensures ParseExpr(floor, ts) == Ok(e, rest) <==>
      ts == Emit(e, rest) && WellFormed(e, floor) && StopsAt(e, floor, Peek(rest))
  {
    ExprSound(floor, ts);
    if ts == Emit(e, rest) && WellFormed(e, floor) && StopsAt(e, floor, Peek(rest)) {
      ExprComplete(e, floor, rest);
    }
  }

  /** Main result: a token stream has at most one well-formed reading at a floor. */
  lemma {:induction false} UniqueReading(floor: int, e: Expr, rest: Stream, e': Expr, rest': Stream)
    requires Emit(e, rest) == Emit(e', rest')
    requires WellFormed(e, floor) && StopsAt(e, floor, Peek(rest))
    requires WellFormed(e', floor) && StopsAt(e', floor, Peek(rest'))
    ensures e == e' && rest == rest'
  {
    ExprComplete(e, floor, rest);
    ExprComplete(e', floor, rest');
  }
}
