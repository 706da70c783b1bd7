/**
 Expression tokens and trees, the precedence table of
 lib/Parse/PrecedenceTable.h, and the relation that says which trees the
 precedence-climbing parser of lib/Parse/ParseExpr.cpp builds.
 */
module ExprSyntax {

  // ----- Tokens -----

  datatype LitKind = Decimal | Hex | Binary | Octal | Text

  /** An identifier, or the reserved word `label` used as one. */
  datatype Name = Word(text: string) | LabelWord

  datatype BinaryOp =
    | Add | Sub | Mul | Div | Mod | BitAnd | BitOr | BitXor | ShiftLeft | ShiftRight
    | Equal | NotEqual | Less | LessEqual | Greater | GreaterEqual | LogicalAnd | LogicalOr

  datatype UnaryOp = Neg | Plus | BitNot | LogicalNot | ReduceAnd | ReduceOr | ReduceXor

  /**
   A token that can be infix is named by its binary operator: `TInfix(Sub)` is
   `-` in every position, and `TStep(true)` is `++`.
   */
  datatype Token =
    | TLiteral(kind: LitKind, text: string) | TName(name: Name) | TSystem(time: bool)
    | TInfix(op: BinaryOp) | TStep(inc: bool) | TTilde | TBang
    | TLParen | TRParen | TLBrace | TRBrace | TDotLBrace | TLBracket | TRBracket
    | TComma | TDot | TColon | TQuestion | THash | TApostrophe | TIf | TElse
    | TOther(text: string) | TEof

  /** What the lexer has still to deliver. After the last token it delivers `TEof` for ever. */
  datatype Stream = End | Tok(head: Token, tail: Stream)

  function Peek(ts: Stream): Token {
    if ts.End? then TEof else ts.head
  }

  function Len(ts: Stream): nat {
    if ts.End? then 0 else 1 + Len(ts.tail)
  }

  // ----- Precedence table -----

  const CONDITIONAL := 5
  const LOGICAL_OR := 10
  const MULTIPLICATIVE := 100
  const POSTFIX := 110

  function Prec(op: BinaryOp): (p: int)
    ensures LOGICAL_OR <= p <= MULTIPLICATIVE
  {
    match op
    case LogicalOr => 10
    case LogicalAnd => 20
    case BitOr => 30
    case BitXor => 40
    case BitAnd => 50
    case Equal => 60
    case NotEqual => 60
    case Less => 70
    case LessEqual => 70
    case Greater => 70
    case GreaterEqual => 70
    case ShiftLeft => 80
    case ShiftRight => 80
    case Add => 90
    case Sub => 90
    case Mul => 100
    case Div => 100
    case Mod => 100
  }

  /** Precedence of a token after a left operand; 0 when it does not continue an expression. */
  function LedPrec(t: Token): int {
    match t
    case TInfix(op) => Prec(op)
    case TQuestion => CONDITIONAL
    case THash => MULTIPLICATIVE
    case TApostrophe => MULTIPLICATIVE
    case TStep(_) => POSTFIX
    case _ => 0
  }

  /** The Pratt loop takes `t` at this floor. */
  predicate Continues(t: Token, floor: int) {
    LedPrec(t) != 0 && LedPrec(t) >= floor
  }

  predicate IsPostfixStart(t: Token) {
    t == TLBracket || t == TDot || t == TLParen
  }

  // ----- Prefix operators -----

  /** The tokens that negate, keep, complement or reduce when no operand precedes them. */
  predicate IsUnaryToken(t: Token) {
    || t == TInfix(Sub) || t == TInfix(Add) || t == TTilde || t == TBang
    || t == TInfix(BitAnd) || t == TInfix(BitOr) || t == TInfix(BitXor)
  }

  function UnaryOpFor(t: Token): UnaryOp
    requires IsUnaryToken(t)
  {
    match t
    case TTilde => BitNot
    case TBang => LogicalNot
    case TInfix(Sub) => Neg
    case TInfix(BitAnd) => ReduceAnd
    case TInfix(BitOr) => ReduceOr
    case TInfix(BitXor) => ReduceXor
    case _ => Plus
  }

  function UnaryToken(op: UnaryOp): (t: Token)
    ensures IsUnaryToken(t) && UnaryOpFor(t) == op
  {
    match op
    case Neg => TInfix(Sub)
    case Plus => TInfix(Add)
    case BitNot => TTilde
    case LogicalNot => TBang
    case ReduceAnd => TInfix(BitAnd)
    case ReduceOr => TInfix(BitOr)
    case ReduceXor => TInfix(BitXor)
  }

  lemma {:induction false} UnaryTokenBack(t: Token)
    requires IsUnaryToken(t)
    ensures UnaryToken(UnaryOpFor(t)) == t
  {
  }

  // ----- Trees -----

  /**
   Trees keep what the token sequence says: parentheses, which conditional
   form, which concat brace, and the head of a call. A node is named after how
   the parser reaches it: atoms and bracketed forms, prefix operators, postfix
   tails, the repeat form, and an operator with what follows it.
   */
  datatype Expr =
    | Atom(leaf: Leaf)
    | Paren(inner: Expr)
    | Cast(typeName: string, operand: Expr, path: Names)
    | Concat(dotted: bool, parts: Exprs)
    | Prefix(op: PrefixOp, sub: Expr)
    | IfElse(cond: Expr, thenE: Expr, elseE: MaybeExpr)
    | Postfix(head: Expr, tail: PostfixTail)
    | Repeat(count: Expr, body: Expr)
    | Led(lhs: Expr, led: LedTail)

  datatype Leaf = Literal(kind: LitKind, text: string) | Ident(name: Name) | SysVar(time: bool)
  datatype PrefixOp = Unary(uop: UnaryOp) | PreStep(inc: bool)
  datatype PostfixTail = Slice(hi: Expr, lo: MaybeExpr) | Field(field: Name) | Call(args: Exprs)
  datatype LedTail =
    | Infix(bop: BinaryOp, rhs: Expr)
    | Ternary(yes: Expr, no: Expr)
    | SignExtend(value: Expr)
    | ZeroExtend(value: Expr)
    | PostStep(inc: bool)
  datatype MaybeExpr = Absent | Present(expr: Expr)
  datatype Exprs = Nil | Cons(first: Expr, more: Exprs)
  /** One or more member names. */
  datatype Names = One(name: Name) | Many(name: Name, rest: Names)

  function LeafToken(l: Leaf): Token {
    match l
    case Literal(k, t) => TLiteral(k, t)
    case Ident(n) => TName(n)
    case SysVar(t) => TSystem(t)
  }

  function PrefixToken(op: PrefixOp): Token {
    match op
    case Unary(u) => UnaryToken(u)
    case PreStep(inc) => TStep(inc)
  }

  function LedToken(t: LedTail): (k: Token)
    ensures LedPrec(k) != 0 && !IsPostfixStart(k) && k != TLBrace
  {
    match t
    case Infix(op, _) => TInfix(op)
    case Ternary(_, _) => TQuestion
    case SignExtend(_) => THash
    case ZeroExtend(_) => TApostrophe
    case PostStep(inc) => TStep(inc)
  }

  function TailToken(t: PostfixTail): (k: Token)
    ensures IsPostfixStart(k)
  {
    match t
    case Slice(_, _) => TLBracket
    case Field(_) => TDot
    case Call(_) => TLParen
  }

  /** The tokens of a tree, followed by `rest`. */
  function Emit(e: Expr, rest: Stream): Stream
    decreases e
  {
    match e
    case Atom(l) => Tok(LeafToken(l), rest)
    case Paren(x) => Tok(TLParen, Emit(x, Tok(TRParen, rest)))
    case Cast(t, x, p) =>
      Tok(TLParen, Tok(TName(Word(t)), Tok(TRParen, Tok(TLParen, Emit(x, Tok(TRParen, EmitPath(p, rest)))))))
    case Concat(d, ps) => Tok(if d then TDotLBrace else TLBrace, EmitList(ps, Tok(TRBrace, rest)))
    case Prefix(op, x) => Tok(PrefixToken(op), Emit(x, rest))
    case IfElse(c, t, x) => Tok(TIf, Tok(TLParen, Emit(c, Tok(TRParen, Emit(t, EmitElse(x, rest))))))
    case Postfix(h, t) => Emit(h, EmitTail(t, rest))
    case Repeat(c, b) => Emit(c, Tok(TLBrace, Emit(b, Tok(TRBrace, rest))))
    case Led(l, t) => Emit(l, EmitLed(t, rest))
  }

  function EmitElse(x: MaybeExpr, rest: Stream): Stream
    decreases x
  {
    match x
    case Absent => rest
    case Present(e) => Tok(TElse, Emit(e, rest))
  }

  /** The tokens of a postfix tail, its first one included. */
  function EmitTail(t: PostfixTail, rest: Stream): Stream
    decreases t
  {
    match t
    case Slice(hi, Absent) => Tok(TLBracket, Emit(hi, Tok(TRBracket, rest)))
    case Slice(hi, Present(lo)) => Tok(TLBracket, Emit(hi, Tok(TColon, Emit(lo, Tok(TRBracket, rest)))))
    case Field(f) => Tok(TDot, Tok(TName(f), rest))
    case Call(a) => Tok(TLParen, EmitList(a, Tok(TRParen, rest)))
  }

  /** The tokens of an operator and what follows it. */
  function EmitLed(t: LedTail, rest: Stream): Stream
    decreases t
  {
    match t
    case Infix(op, r) => Tok(TInfix(op), Emit(r, rest))
    case Ternary(y, n) => Tok(TQuestion, Emit(y, Tok(TColon, Emit(n, rest))))
    case SignExtend(x) => Tok(THash, Emit(x, rest))
    case ZeroExtend(x) => Tok(TApostrophe, Tok(TLParen, Emit(x, Tok(TRParen, rest))))
    case PostStep(inc) => Tok(TStep(inc), rest)
  }

  function EmitList(es: Exprs, rest: Stream): Stream
    decreases es
  {
    match es
    case Nil => rest
    case Cons(e, Nil) => Emit(e, rest)
    case Cons(e, more) => Emit(e, Tok(TComma, EmitList(more, rest)))
  }

  function EmitPath(p: Names, rest: Stream): Stream {
    match p
    case One(n) => Tok(TDot, Tok(TName(n), rest))
    case Many(n, more) => Tok(TDot, Tok(TName(n), EmitPath(more, rest)))
  }

  // ----- Which trees the parser builds -----

  /** A nud with its postfix tail: no repeat, no operator outside it. */
  predicate IsPrim(e: Expr) {
    !e.Repeat? && !e.Led?
  }

  predicate IsNud(e: Expr) {
    IsPrim(e) && !e.Postfix?
  }

  predicate IsPlainName(e: Expr) {
    e.Atom? && e.leaf.Ident? && e.leaf.name.Word?
  }

  /** No parse still open on the right edge of `e` takes the token `k` that follows it. */
  predicate Stops(e: Expr, k: Token)
    decreases e
  {
    match e
    case Atom(_) => true
    case Paren(x) => !(IsPlainName(x) && k == TLParen)
    case Cast(_, _, _) => k != TDot
    case Concat(_, _) => true
    case Prefix(_, x) => Stops(x, k) && EndsBefore(x, MULTIPLICATIVE, k)
    case IfElse(_, t, Absent) => k != TElse && Stops(t, k) && EndsBefore(t, LOGICAL_OR, k)
    case IfElse(_, _, Present(x)) => Stops(x, k) && EndsBefore(x, LOGICAL_OR, k)
    case Postfix(_, _) => true
    case Repeat(_, _) => true
    case Led(_, t) => LedStops(t, k)
  }

  predicate LedStops(t: LedTail, k: Token)
    decreases t
  {
    match t
    case Infix(op, r) => Stops(r, k) && EndsBefore(r, Prec(op) + 1, k)
    case Ternary(_, n) => Stops(n, k) && EndsBefore(n, CONDITIONAL, k)
    case SignExtend(x) => Stops(x, k) && !IsPostfixStart(k)
    case ZeroExtend(_) => true
    case PostStep(_) => true
  }

  /** The operator loop, holding `e`, is past the postfix and repeat forms. */
  predicate PastPrim(e: Expr, k: Token) {
    IsPrim(e) ==> !IsPostfixStart(k) && k != TLBrace
  }

  /** A parse at this floor whose own loops hold `e` ends before `k`. */
  predicate EndsBefore(e: Expr, floor: int, k: Token) {
    PastPrim(e, k) && !Continues(k, floor)
  }

  /** A parse of `e` at this floor ends before the token `k`. */
  predicate StopsAt(e: Expr, floor: int, k: Token) {
    Stops(e, k) && EndsBefore(e, floor, k)
  }

  /**
   A parse at this floor can build `e`: every operator on the left spine is at
   or above the floor, and every operator inside meets an operand whose open
   right edge would not have taken it first.
   */
  predicate WellFormed(e: Expr, floor: int)
    decreases e
  {
    match e
    case Atom(_) => true
    case Paren(x) => WellFormed(x, 0)
    case Cast(_, x, _) => WellFormed(x, 0)
    case Concat(_, ps) => AllWellFormed(ps)
    case Prefix(_, x) => WellFormed(x, MULTIPLICATIVE)
    case IfElse(c, t, x) =>
      && WellFormed(c, 0) && WellFormed(t, LOGICAL_OR)
      && (x.Present? ==> StopsAt(t, LOGICAL_OR, TElse) && WellFormed(x.expr, LOGICAL_OR))
    case Postfix(h, t) => IsPrim(h) && WellFormed(h, 0) && Stops(h, TailToken(t)) && TailWellFormed(t)
    case Repeat(c, b) => IsPrim(c) && WellFormed(c, 0) && Stops(c, TLBrace) && WellFormed(b, 0)
    case Led(l, t) => Continues(LedToken(t), floor) && WellFormed(l, floor) && Stops(l, LedToken(t)) && LedWellFormed(t)
  }

  predicate TailWellFormed(t: PostfixTail)
    decreases t
  {
    match t
    case Slice(hi, lo) => WellFormed(hi, 0) && (lo.Present? ==> WellFormed(lo.expr, 0))
    case Field(_) => true
    case Call(a) => AllWellFormed(a)
  }

  predicate LedWellFormed(t: LedTail)
    decreases t
  {
    match t
    case Infix(op, r) => WellFormed(r, Prec(op) + 1)
    case Ternary(y, n) => WellFormed(y, CONDITIONAL) && WellFormed(n, CONDITIONAL)
    case SignExtend(x) => IsPrim(x) && WellFormed(x, 0)
    case ZeroExtend(x) => WellFormed(x, 0)
    case PostStep(_) => true
  }

  predicate AllWellFormed(es: Exprs)
    decreases es
  {
    match es
    case Nil => true
    case Cons(e, more) => WellFormed(e, 0) && AllWellFormed(more)
  }

  /** Closing and separating tokens, `;` among the others: no open parse ever takes them. */
  predicate IsCloser(k: Token) {
    k == TRParen || k == TRBracket || k == TRBrace || k == TComma || k == TColon || k == TEof || k.TOther?
  }

  lemma {:induction false} ClosersStop(e: Expr, k: Token)
    requires IsCloser(k)
    ensures Stops(e, k) && PastPrim(e, k)
  {
    match e
    case Prefix(_, x) => ClosersStop(x, k);
    case IfElse(_, t, Absent) => ClosersStop(t, k);
    case IfElse(_, _, Present(x)) => ClosersStop(x, k);
    case Led(_, Infix(op, r)) =>
      ClosersStop(r, k);
      assert LedStops(e.led, k);
    case Led(_, Ternary(_, n)) =>
      ClosersStop(n, k);
      assert LedStops(e.led, k);
    case Led(_, SignExtend(x)) =>
      ClosersStop(x, k);
      assert LedStops(e.led, k);
    case _ =>
  }

  /** Floors only matter where an operator is outermost. */
  lemma {:induction false} PrimFloor(e: Expr, f: int, g: int)
    requires !e.Led?
    ensures WellFormed(e, f) == WellFormed(e, g)
  {
  }
}
