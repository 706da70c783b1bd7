/**
 How operators group, said with the chain of operators written out rather than
 with precedence numbers: the tree of any chain of infix operators, and where
 the other forms stand beside them.
 */
module OperatorGrouping {
  import opened ExprSyntax
  import opened PrattParser

  /** The infix operators from the loosest to the tightest. */
  const CHAIN: seq<set<BinaryOp>> := [
    {LogicalOr},
    {LogicalAnd},
    {BitOr},
    {BitXor},
    {BitAnd},
    {Equal, NotEqual},
    {Less, LessEqual, Greater, GreaterEqual},
    {ShiftLeft, ShiftRight},
    {Add, Sub},
    {Mul, Div, Mod}
  ]

  /** Where an operator stands in the chain. */
  function Place(op: BinaryOp): (i: nat)
    ensures i < |CHAIN| && op in CHAIN[i]
  {
    match op
    case LogicalOr => 0
    case LogicalAnd => 1
    case BitOr => 2
    case BitXor => 3
    case BitAnd => 4
    case Equal => 5
    case NotEqual => 5
    case Less => 6
    case LessEqual => 6
    case Greater => 6
    case GreaterEqual => 6
    case ShiftLeft => 7
    case ShiftRight => 7
    case Add => 8
    case Sub => 8
    case Mul => 9
    case Div => 9
    case Mod => 9
  }

  predicate IsTightest(op: BinaryOp) {
    op == Mul || op == Div || op == Mod
  }

  /** The table and the chain agree. */
  lemma {:induction false} PlaceIsPrec(op: BinaryOp)
    ensures Prec(op) == 10 * Place(op) + 10
    ensures IsTightest(op) <==> Place(op) == 9
  {
  }

  // ----- Chains of operands and operators -----

  /** `x0 op0 x1 op1 ...`: a first operand, then operators with their right operands. */
  datatype Chain = Chain(first: Leaf, ops: seq<BinaryOp>, operands: seq<Leaf>)

  ghost predicate IsChain(c: Chain) {
    |c.ops| == |c.operands|
  }

  /** The tokens of a chain as they are written. */
  function Written(c: Chain, rest: Stream): Stream
    requires |c.ops| == |c.operands|
    decreases |c.ops|
  {
    Tok(LeafToken(c.first),
      if c.ops == [] then rest
      else Tok(TInfix(c.ops[0]), Written(Chain(c.operands[0], c.ops[1..], c.operands[1..]), rest)))
  }

  /** The last of the loosest operators. */
  function Root(ops: seq<BinaryOp>): (r: nat)
    requires ops != []
    ensures r < |ops|
  {
    var n := |ops| - 1;
    if n == 0 then 0
    else
      var r := Root(ops[..n]);
      if Place(ops[n]) <= Place(ops[r]) then n else r
  }

  lemma {:induction false} RootIsLoosest(ops: seq<BinaryOp>)
    requires ops != []
    ensures forall i :: 0 <= i < |ops| ==> Place(ops[Root(ops)]) <= Place(ops[i])
    ensures forall i :: Root(ops) < i < |ops| ==> Place(ops[Root(ops)]) < Place(ops[i])
  {
    var n := |ops| - 1;
    if n > 0 {
      var front := ops[..n];
      RootIsLoosest(front);
      assert forall i :: 0 <= i < n ==> front[i] == ops[i];
    }
  }

  function Before(c: Chain, r: nat): (b: Chain)
    requires |c.ops| == |c.operands| && r < |c.ops|
    ensures |b.ops| == |b.operands| == r
  {
    Chain(c.first, c.ops[..r], c.operands[..r])
  }

  function After(c: Chain, r: nat): (a: Chain)
    requires |c.ops| == |c.operands| && r < |c.ops|
    ensures |a.ops| == |a.operands| == |c.ops| - r - 1
  {
    Chain(c.operands[r], c.ops[r + 1..], c.operands[r + 1..])
  }

  /** How a chain falls apart. */
  datatype Grouping = Operand(leaf: Leaf) | Join(left: Grouping, op: BinaryOp, right: Grouping)

  /** The last of the loosest operators joins what stands before it to what follows. */
  function Split(c: Chain): Grouping
    requires |c.ops| == |c.operands|
    decreases |c.ops|
  {
    if c.ops == [] then Operand(c.first)
    else
      var r := Root(c.ops);
      Join(Split(Before(c, r)), c.ops[r], Split(After(c, r)))
  }

  function TreeOf(g: Grouping): Expr {
    match g
    case Operand(x) => Atom(x)
    case Join(l, op, r) => Led(TreeOf(l), Infix(op, TreeOf(r)))
  }

  /** The tree of a chain. */
  function Grouped(c: Chain): Expr
    requires |c.ops| == |c.operands|
  {
    TreeOf(Split(c))
  }

  // ----- The tree spells the chain -----

  lemma {:induction false} WrittenSplits(c: Chain, r: nat, rest: Stream)
    requires IsChain(c) && r < |c.ops|
    ensures Written(c, rest) == Written(Before(c, r), Tok(TInfix(c.ops[r]), Written(After(c, r), rest)))
    decreases r
  {
    if r > 0 {
      var tail := Chain(c.operands[0], c.ops[1..], c.operands[1..]);
      WrittenSplits(tail, r - 1, rest);
      var b := Before(c, r);
      assert Chain(b.operands[0], b.ops[1..], b.operands[1..]) == Before(tail, r - 1);
      assert After(tail, r - 1) == After(c, r);
    }
  }

  lemma {:induction false} GroupedSpells(c: Chain, rest: Stream)
    requires IsChain(c)
    ensures Emit(Grouped(c), rest) == Written(c, rest)
    decreases |c.ops|
  {
    if c.ops != [] {
      var r := Root(c.ops);
      GroupedSpells(After(c, r), rest);
      GroupedSpells(Before(c, r), Tok(TInfix(c.ops[r]), Written(After(c, r), rest)));
      WrittenSplits(c, r, rest);
      EmitInfix(Grouped(Before(c, r)), c.ops[r], Grouped(After(c, r)), rest);
    }
  }

  lemma EmitInfix(l: Expr, op: BinaryOp, r: Expr, rest: Stream)
    ensures Emit(Led(l, Infix(op, r)), rest) == Emit(l, Tok(TInfix(op), Emit(r, rest)))
  {
    assert EmitLed(Infix(op, r), rest) == Tok(TInfix(op), Emit(r, rest));
  }

  // ----- The parser builds it -----

  /** A token that no operand and no postfix form takes, and that continues nothing above the floor. */
  predicate EndsChain(k: Token, floor: int) {
    !IsPostfixStart(k) && k != TLBrace && !Continues(k, floor)
  }

  /** Every operator of a grouping stands at the place or later. */
  predicate From(g: Grouping, place: int) {
    g.Join? ==> place <= Place(g.op) && From(g.left, place) && From(g.right, place)
  }

  /** No operator below a join is looser, and none to its right as loose. */
  predicate Ordered(g: Grouping) {
    g.Join? ==>
      && From(g.left, Place(g.op)) && From(g.right, Place(g.op) + 1)
      && Ordered(g.left) && Ordered(g.right)
  }

  ghost predicate AllFrom(ops: seq<BinaryOp>, place: int) {
    forall i :: 0 <= i < |ops| ==> place <= Place(ops[i])
  }

  lemma {:induction false} SplitIsFrom(c: Chain, place: int)
    requires IsChain(c) && AllFrom(c.ops, place)
    ensures From(Split(c), place)
    decreases |c.ops|
  {
    if c.ops != [] {
      var r := Root(c.ops);
      SplitIsFrom(Before(c, r), place);
      SplitIsFrom(After(c, r), place);
    }
  }

  lemma {:induction false} SplitIsOrdered(c: Chain)
    requires IsChain(c)
    ensures Ordered(Split(c))
    decreases |c.ops|
  {
    if c.ops != [] {
      var r := Root(c.ops);
      RootIsLoosest(c.ops);
      SplitIsFrom(Before(c, r), Place(c.ops[r]));
      SplitIsFrom(After(c, r), Place(c.ops[r]) + 1);
      SplitIsOrdered(Before(c, r));
      SplitIsOrdered(After(c, r));
    }
  }

  lemma {:induction false} InfixStops(l: Expr, op: BinaryOp, r: Expr, k: Token, floor: int)
    requires EndsChain(k, floor) && StopsAt(r, Prec(op) + 1, k)
    ensures StopsAt(Led(l, Infix(op, r)), floor, k)
  {
    assert LedStops(Infix(op, r), k);
  }

  /** A token that ends a grouping ends every tighter one. */
  lemma {:induction false} OrderedStops(g: Grouping, k: Token, floor: int, place: int)
    requires Ordered(g) && From(g, place) && EndsChain(k, floor) && floor <= 10 * place + 11
    ensures StopsAt(TreeOf(g), floor, k)
  {
    if g.Join? {
      PlaceIsPrec(g.op);
      OrderedStops(g.right, k, Prec(g.op) + 1, Place(g.op) + 1);
      InfixStops(TreeOf(g.left), g.op, TreeOf(g.right), k, floor);
    }
  }

  /** The parser builds it at every floor below its operators. */
  lemma {:induction false} OrderedIsWellFormed(g: Grouping, floor: int, place: int)
    requires Ordered(g) && From(g, place) && floor <= 10 * place + 10
    ensures WellFormed(TreeOf(g), floor)
  {
    if g.Join? {
      PlaceIsPrec(g.op);
      OrderedIsWellFormed(g.left, floor, Place(g.op));
      OrderedIsWellFormed(g.right, Prec(g.op) + 1, Place(g.op) + 1);
      OrderedStops(g.left, TInfix(g.op), Prec(g.op) + 1, Place(g.op));
      InfixIsWellFormed(TreeOf(g.left), g.op, TreeOf(g.right), floor);
    }
  }

  lemma {:induction false} GroupedIsWellFormed(c: Chain, floor: int)
    requires IsChain(c) && floor <= LOGICAL_OR
    ensures WellFormed(Grouped(c), floor)
  {
    SplitIsOrdered(c);
    SplitIsFrom(c, 0);
    OrderedIsWellFormed(Split(c), floor, 0);
  }

  lemma {:induction false} GroupedStops(c: Chain, k: Token, floor: int)
    requires IsChain(c) && floor <= LOGICAL_OR && EndsChain(k, floor)
    ensures StopsAt(Grouped(c), floor, k)
  {
    SplitIsOrdered(c);
    SplitIsFrom(c, 0);
    OrderedStops(Split(c), k, floor, 0);
  }

  lemma InfixIsWellFormed(l: Expr, op: BinaryOp, r: Expr, floor: int)
    requires floor <= Prec(op) && WellFormed(l, floor) && Stops(l, TInfix(op)) && WellFormed(r, Prec(op) + 1)
    ensures WellFormed(Led(l, Infix(op, r)), floor)
  {
    assert LedWellFormed(Infix(op, r));
  }

  /** Main result: any chain of infix operators before a closing token groups by the chain of operators, left to right. */
  lemma {:induction false} ChainGroups(c: Chain, rest: Stream)
    requires |c.ops| == |c.operands| && IsCloser(Peek(rest))
    ensures ParseExpr(0, Written(c, rest)) == Ok(Grouped(c), rest)
  {
    GroupedIsWellFormed(c, 0);
    GroupedStops(c, Peek(rest), 0);
    GroupedSpells(c, rest);
    ExprComplete(Grouped(c), 0, rest);
  }

  // ----- Two operators -----

  function Two(x: Leaf, op: BinaryOp, y: Leaf, op': BinaryOp, z: Leaf, rest: Stream): Stream {
    Tok(LeafToken(x), Tok(TInfix(op), Tok(LeafToken(y), Tok(TInfix(op'), Tok(LeafToken(z), rest)))))
  }

  lemma {:induction false} SplitOne(x: Leaf, op: BinaryOp, y: Leaf)
    ensures Split(Chain(x, [op], [y])) == Join(Operand(x), op, Operand(y))
    ensures TreeOf(Join(Operand(x), op, Operand(y))) == Led(Atom(x), Infix(op, Atom(y)))
  {
    var c := Chain(x, [op], [y]);
    assert Root(c.ops) == 0;
    assert Before(c, 0) == Chain(x, [], []) && After(c, 0) == Chain(y, [], []);
    assert TreeOf(Operand(x)) == Atom(x) && TreeOf(Operand(y)) == Atom(y);
  }

  lemma {:induction false} RootOfTwo(op: BinaryOp, op': BinaryOp)
    ensures Root([op, op']) == if Place(op) >= Place(op') then 1 else 0
  {
    assert [op, op'][..1] == [op];
    assert Root([op]) == 0;
  }

  lemma {:induction false} GroupedTwo(x: Leaf, op: BinaryOp, y: Leaf, op': BinaryOp, z: Leaf)
    ensures Grouped(Chain(x, [op, op'], [y, z])) ==
      if Place(op) >= Place(op') then Led(Led(Atom(x), Infix(op, Atom(y))), Infix(op', Atom(z)))
      else Led(Atom(x), Infix(op, Led(Atom(y), Infix(op', Atom(z)))))
  {
    var c := Chain(x, [op, op'], [y, z]);
    RootOfTwo(op, op');
    if Place(op) >= Place(op') {
      assert Before(c, 1) == Chain(x, [op], [y]) && After(c, 1) == Chain(z, [], []);
      SplitOne(x, op, y);
      assert Split(c) == Join(Join(Operand(x), op, Operand(y)), op', Operand(z));
      assert TreeOf(Operand(z)) == Atom(z);
    } else {
      assert Before(c, 0) == Chain(x, [], []) && After(c, 0) == Chain(y, [op'], [z]);
      SplitOne(y, op', z);
      assert Split(c) == Join(Operand(x), op, Join(Operand(y), op', Operand(z)));
      assert TreeOf(Operand(x)) == Atom(x);
    }
  }

  lemma {:induction false} WrittenOne(x: Leaf, op: BinaryOp, y: Leaf, rest: Stream)
    ensures Written(Chain(x, [op], [y]), rest) == Tok(LeafToken(x), Tok(TInfix(op), Tok(LeafToken(y), rest)))
  {
    var c := Chain(x, [op], [y]);
    assert Chain(c.operands[0], c.ops[1..], c.operands[1..]) == Chain(y, [], []);
    assert Written(Chain(y, [], []), rest) == Tok(LeafToken(y), rest);
  }

  /** Main result: of two operators the first takes the middle operand, unless it stands earlier in the chain. */
  lemma {:induction false} TwoOperatorsGroup(i: nat, j: nat, op: BinaryOp, op': BinaryOp, x: Leaf, y: Leaf, z: Leaf, rest: Stream)
    requires i < |CHAIN| && j < |CHAIN| && op in CHAIN[i] && op' in CHAIN[j] && IsCloser(Peek(rest))
    ensures ParseExpr(0, Two(x, op, y, op', z, rest)) ==
      if i >= j then Ok(Led(Led(Atom(x), Infix(op, Atom(y))), Infix(op', Atom(z))), rest)
      else Ok(Led(Atom(x), Infix(op, Led(Atom(y), Infix(op', Atom(z))))), rest)
  {
    PlaceIsUnique(i, op);
    PlaceIsUnique(j, op');
    var c := Chain(x, [op, op'], [y, z]);
    GroupedTwo(x, op, y, op', z);
    assert Chain(c.operands[0], c.ops[1..], c.operands[1..]) == Chain(y, [op'], [z]);
    WrittenOne(y, op', z, rest);
    ChainGroups(c, rest);
  }

  lemma {:induction false} PlaceIsUnique(i: nat, op: BinaryOp)
    requires i < |CHAIN| && op in CHAIN[i]
    ensures Place(op) == i
  {
  }

  // ----- The conditional -----

  lemma {:induction false} TernaryParses(c: Expr, y: Expr, n: Expr, rest: Stream)
    requires WellFormed(c, LOGICAL_OR) && Stops(c, TQuestion) && IsCloser(Peek(rest))
    requires WellFormed(y, CONDITIONAL) && WellFormed(n, CONDITIONAL)
    ensures WellFormed(Led(c, Ternary(y, n)), CONDITIONAL)
    ensures ParseExpr(0, Emit(c, Tok(TQuestion, Emit(y, Tok(TColon, Emit(n, rest)))))) == Ok(Led(c, Ternary(y, n)), rest)
  {
    var e := Led(c, Ternary(y, n));
    LowerFloor(c, LOGICAL_OR, CONDITIONAL);
    LowerFloor(c, CONDITIONAL, 0);
    assert LedWellFormed(Ternary(y, n));
    assert WellFormed(e, 0) && WellFormed(e, CONDITIONAL);
    ClosersStop(e, Peek(rest));
    assert EmitLed(Ternary(y, n), rest) == Tok(TQuestion, Emit(y, Tok(TColon, Emit(n, rest))));
    ExprComplete(e, 0, rest);
  }

  lemma {:induction false} LowerFloor(e: Expr, high: int, low: int)
    requires WellFormed(e, high) && low <= high
    ensures WellFormed(e, low)
  {
    if e.Led? {
      LowerFloor(e.lhs, high, low);
    } else {
      PrimFloor(e, high, low);
    }
  }

  lemma GroupedAboveConditional(c: Chain)
    requires IsChain(c)
    ensures WellFormed(Grouped(c), LOGICAL_OR) && WellFormed(Grouped(c), CONDITIONAL) && Stops(Grouped(c), TQuestion)
  {
    GroupedIsWellFormed(c, LOGICAL_OR);
    LowerFloor(Grouped(c), LOGICAL_OR, CONDITIONAL);
    GroupedStops(c, TQuestion, LOGICAL_OR);
  }

  /** Main result: every infix operator binds tighter than `?:`, on all three sides. */
  lemma {:induction false} ConditionalIsLoosest(c: Chain, y: Chain, n: Chain, rest: Stream)
    requires |c.ops| == |c.operands| && |y.ops| == |y.operands| && |n.ops| == |n.operands| && IsCloser(Peek(rest))
    ensures ParseExpr(0, Written(c, Tok(TQuestion, Written(y, Tok(TColon, Written(n, rest)))))) ==
      Ok(Led(Grouped(c), Ternary(Grouped(y), Grouped(n))), rest)
  {
    GroupedAboveConditional(c);
    GroupedAboveConditional(y);
    GroupedAboveConditional(n);
    GroupedSpells(n, rest);
    GroupedSpells(y, Tok(TColon, Written(n, rest)));
    GroupedSpells(c, Tok(TQuestion, Written(y, Tok(TColon, Written(n, rest)))));
    TernaryParses(Grouped(c), Grouped(y), Grouped(n), rest);
  }

  /** Main result: a second `?` goes to the third operand of the first. */
  lemma {:induction false} ConditionalNests(a: Leaf, b: Leaf, c: Leaf, d: Leaf, e: Leaf, rest: Stream)
    requires IsCloser(Peek(rest))
    ensures
      ParseExpr(0, Tok(LeafToken(a), Tok(TQuestion, Tok(LeafToken(b), Tok(TColon,
        Tok(LeafToken(c), Tok(TQuestion, Tok(LeafToken(d), Tok(TColon, Tok(LeafToken(e), rest)))))))))) ==
      Ok(Led(Atom(a), Ternary(Atom(b), Led(Atom(c), Ternary(Atom(d), Atom(e))))), rest)
  {
    var inner := Led(Atom(c), Ternary(Atom(d), Atom(e)));
    TernaryParses(Atom(c), Atom(d), Atom(e), rest);
    assert EmitLed(Ternary(Atom(d), Atom(e)), rest) == Tok(TQuestion, Tok(LeafToken(d), Tok(TColon, Tok(LeafToken(e), rest))));
    TernaryParses(Atom(a), Atom(b), inner, rest);
  }

  // ----- Sign and zero extension, postfix step -----

  /** `#`, `'` and a postfix step, each on a leaf, with the tokens it is written with. */
  function TailTokens(t: LedTail, rest: Stream): Stream
    requires IsTail(t)
  {
    match t
    case SignExtend(x) => Tok(THash, Tok(LeafToken(x.leaf), rest))
    case ZeroExtend(x) => Tok(TApostrophe, Tok(TLParen, Tok(LeafToken(x.leaf), Tok(TRParen, rest))))
    case PostStep(inc) => Tok(TStep(inc), rest)
  }

  predicate IsTail(t: LedTail) {
    t.PostStep? || (t.SignExtend? && t.value.Atom?) || (t.ZeroExtend? && t.value.Atom?)
  }

  lemma {:induction false} TailIsWellFormed(l: Expr, t: LedTail, floor: int)
    requires IsTail(t) && WellFormed(l, floor) && Stops(l, LedToken(t))
    requires floor <= (if t.PostStep? then 110 else 100)
    ensures WellFormed(Led(l, t), floor)
  {
    assert LedWellFormed(t);
  }

  lemma {:induction false} TailStops(l: Expr, t: LedTail, k: Token, floor: int)
    requires IsTail(t) && EndsChain(k, floor)
    ensures StopsAt(Led(l, t), floor, k)
  {
    assert LedStops(t, k);
  }

  lemma {:induction false} TailSpells(l: Expr, t: LedTail, rest: Stream)
    requires IsTail(t)
    ensures Emit(Led(l, t), rest) == Emit(l, TailTokens(t, rest))
  {
    assert EmitLed(t, rest) == TailTokens(t, rest);
  }

  lemma {:induction false} TailParses(l: Expr, t: LedTail, rest: Stream)
    requires IsTail(t) && IsCloser(Peek(rest)) && WellFormed(l, 0) && Stops(l, LedToken(t))
    ensures ParseExpr(0, Emit(l, TailTokens(t, rest))) == Ok(Led(l, t), rest)
  {
    TailIsWellFormed(l, t, 0);
    TailStops(l, t, Peek(rest), 0);
    TailSpells(l, t, rest);
    ExprComplete(Led(l, t), 0, rest);
  }

  /** An operator before a closing token, with operands that fit it. */
  lemma {:induction false} InfixParses(l: Expr, op: BinaryOp, r: Expr, rest: Stream)
    requires WellFormed(l, 0) && Stops(l, TInfix(op)) && WellFormed(r, Prec(op) + 1) && IsCloser(Peek(rest))
    ensures ParseExpr(0, Emit(l, Tok(TInfix(op), Emit(r, rest)))) == Ok(Led(l, Infix(op, r)), rest)
  {
    var e := Led(l, Infix(op, r));
    InfixIsWellFormed(l, op, r, 0);
    ClosersStop(e, Peek(rest));
    EmitInfix(l, op, r, rest);
    ExprComplete(e, 0, rest);
  }

  lemma {:induction false} TailTakesProduct(x: Leaf, op: BinaryOp, y: Leaf, t: LedTail, rest: Stream)
    requires IsTail(t) && IsCloser(Peek(rest)) && Prec(op) == 100 && !t.PostStep?
    ensures ParseExpr(0, Tok(LeafToken(x), Tok(TInfix(op), Tok(LeafToken(y), TailTokens(t, rest))))) ==
      Ok(Led(Led(Atom(x), Infix(op, Atom(y))), t), rest)
  {
    var l := Led(Atom(x), Infix(op, Atom(y)));
    InfixIsWellFormed(Atom(x), op, Atom(y), 0);
    assert LedStops(Infix(op, Atom(y)), LedToken(t));
    EmitInfix(Atom(x), op, Atom(y), TailTokens(t, rest));
    TailParses(l, t, rest);
  }

  lemma {:induction false} TailTakesOperand(x: Leaf, op: BinaryOp, y: Leaf, t: LedTail, rest: Stream)
    requires IsTail(t) && IsCloser(Peek(rest)) && (Prec(op) < 100 || t.PostStep?)
    ensures ParseExpr(0, Tok(LeafToken(x), Tok(TInfix(op), Tok(LeafToken(y), TailTokens(t, rest))))) ==
      Ok(Led(Atom(x), Infix(op, Led(Atom(y), t))), rest)
  {
    TailSpells(Atom(y), t, rest);
    TailIsWellFormed(Atom(y), t, Prec(op) + 1);
    InfixParses(Atom(x), op, Led(Atom(y), t), rest);
  }

  /**
   Main result: a postfix step applies to the operand it follows; `#` and `'`
   stand with `*`, `/` and `%`: they take a product to their left, and only the
   operand of any other operator.
   */
  lemma {:induction false} TailGroups(x: Leaf, op: BinaryOp, y: Leaf, t: LedTail, rest: Stream)
    requires IsTail(t) && IsCloser(Peek(rest))
    ensures ParseExpr(0, Tok(LeafToken(x), Tok(TInfix(op), Tok(LeafToken(y), TailTokens(t, rest))))) ==
      if !t.PostStep? && (op == Mul || op == Div || op == Mod) then Ok(Led(Led(Atom(x), Infix(op, Atom(y))), t), rest)
      else Ok(Led(Atom(x), Infix(op, Led(Atom(y), t))), rest)
  {
    PlaceIsPrec(op);
    if !t.PostStep? && IsTightest(op) {
      TailTakesProduct(x, op, y, t, rest);
    } else {
      TailTakesOperand(x, op, y, t, rest);
    }
  }

  /** Main result: whatever operator follows such a form takes the whole of it as its left operand. */
  lemma {:induction false} AfterTailGroups(x: Leaf, t: LedTail, op: BinaryOp, y: Leaf, rest: Stream)
    requires IsTail(t) && IsCloser(Peek(rest))
    ensures ParseExpr(0, Tok(LeafToken(x), TailTokens(t, Tok(TInfix(op), Tok(LeafToken(y), rest))))) ==
      Ok(Led(Led(Atom(x), t), Infix(op, Atom(y))), rest)
  {
    TailIsWellFormed(Atom(x), t, 0);
    TailStops(Atom(x), t, TInfix(op), 111);
    TailSpells(Atom(x), t, Tok(TInfix(op), Tok(LeafToken(y), rest)));
    InfixParses(Led(Atom(x), t), op, Atom(y), rest);
  }

  // ----- Prefix operators -----

  /** The prefix operators as they are written. */
  const PREFIXES: map<Token, PrefixOp> := map[
    TInfix(Sub) := Unary(Neg),
    TInfix(Add) := Unary(Plus),
    TTilde := Unary(BitNot),
    TBang := Unary(LogicalNot),
    TInfix(BitAnd) := Unary(ReduceAnd),
    TInfix(BitOr) := Unary(ReduceOr),
    TInfix(BitXor) := Unary(ReduceXor),
    TStep(true) := PreStep(true),
    TStep(false) := PreStep(false)
  ]

  lemma {:induction false} PrefixesAreWritten(t: Token)
    requires t in PREFIXES
    ensures PrefixToken(PREFIXES[t]) == t
  {
  }

  lemma {:induction false} PrefixParses(p: PrefixOp, inner: Expr, rest: Stream)
    requires WellFormed(inner, MULTIPLICATIVE) && IsCloser(Peek(rest))
    ensures ParseExpr(0, Tok(PrefixToken(p), Emit(inner, rest))) == Ok(Prefix(p, inner), rest)
  {
    var e := Prefix(p, inner);
    ClosersStop(e, Peek(rest));
    assert WellFormed(e, 0);
    ExprComplete(e, 0, rest);
  }

  lemma {:induction false} PrefixIsOperand(p: PrefixOp, x: Leaf, op: BinaryOp, y: Leaf, rest: Stream)
    requires IsCloser(Peek(rest)) && Prec(op) < MULTIPLICATIVE
    ensures ParseExpr(0, Tok(PrefixToken(p), Tok(LeafToken(x), Tok(TInfix(op), Tok(LeafToken(y), rest))))) ==
      Ok(Led(Prefix(p, Atom(x)), Infix(op, Atom(y))), rest)
  {
    var l := Prefix(p, Atom(x));
    assert WellFormed(l, 0) && Stops(l, TInfix(op));
    InfixParses(l, op, Atom(y), rest);
  }

  /** Main result: a prefix operator takes a product that follows it, and only the operand before any other operator. */
  lemma {:induction false} PrefixGroups(t: Token, x: Leaf, op: BinaryOp, y: Leaf, rest: Stream)
    requires t in PREFIXES && IsCloser(Peek(rest))
    ensures ParseExpr(0, Tok(t, Tok(LeafToken(x), Tok(TInfix(op), Tok(LeafToken(y), rest))))) ==
      if op == Mul || op == Div || op == Mod then Ok(Prefix(PREFIXES[t], Led(Atom(x), Infix(op, Atom(y)))), rest)
      else Ok(Led(Prefix(PREFIXES[t], Atom(x)), Infix(op, Atom(y))), rest)
  {
    PlaceIsPrec(op);
    PrefixesAreWritten(t);
    if IsTightest(op) {
      InfixIsWellFormed(Atom(x), op, Atom(y), MULTIPLICATIVE);
      EmitInfix(Atom(x), op, Atom(y), rest);
      PrefixParses(PREFIXES[t], Led(Atom(x), Infix(op, Atom(y))), rest);
    } else {
      PrefixIsOperand(PREFIXES[t], x, op, y, rest);
    }
  }

  /** Main result: a prefix operator applies to its operand together with any `#`, `'` or postfix step after it. */
  lemma {:induction false} PrefixTakesTail(t: Token, x: Leaf, tail: LedTail, rest: Stream)
    requires t in PREFIXES && IsTail(tail) && IsCloser(Peek(rest))
    ensures ParseExpr(0, Tok(t, Tok(LeafToken(x), TailTokens(tail, rest)))) == Ok(Prefix(PREFIXES[t], Led(Atom(x), tail)), rest)
  {
    PrefixesAreWritten(t);
    TailIsWellFormed(Atom(x), tail, MULTIPLICATIVE);
    TailSpells(Atom(x), tail, rest);
    PrefixParses(PREFIXES[t], Led(Atom(x), tail), rest);
  }

  lemma {:induction false} IfParses(c: Expr, y: Expr, n: Expr, rest: Stream)
    requires WellFormed(c, 0) && WellFormed(y, LOGICAL_OR) && WellFormed(n, LOGICAL_OR)
    requires StopsAt(y, LOGICAL_OR, TElse) && StopsAt(n, LOGICAL_OR, Peek(rest))
    ensures ParseNud(Tok(TIf, Tok(TLParen, Emit(c, Tok(TRParen, Emit(y, Tok(TElse, Emit(n, rest)))))))) ==
      Ok(IfElse(c, y, Present(n)), rest)
  {
    var e := IfElse(c, y, Present(n));
    assert EmitElse(e.elseE, rest) == Tok(TElse, Emit(n, rest));
    assert Emit(e, rest) == Tok(TIf, Tok(TLParen, Emit(c, Tok(TRParen, Emit(y, Tok(TElse, Emit(n, rest)))))));
    assert WellFormed(e, 0) && Stops(e, Peek(rest));
    IfComplete(e, rest);
  }

  lemma {:induction false} GroupedAsBranch(c: Chain)
    requires IsChain(c)
    ensures WellFormed(Grouped(c), 0) && WellFormed(Grouped(c), LOGICAL_OR)
  {
    GroupedIsWellFormed(c, 0);
    GroupedIsWellFormed(c, LOGICAL_OR);
  }

  lemma {:induction false} EndsBranch(c: Chain, k: Token)
    requires IsChain(c) && (k == TElse || k == TQuestion || IsCloser(k))
    ensures StopsAt(Grouped(c), LOGICAL_OR, k)
  {
    assert EndsChain(k, LOGICAL_OR);
    GroupedStops(c, k, LOGICAL_OR);
  }

  /** Main result: the last branch of an `if` takes every infix operator after it, and leaves a `?`. */
  lemma {:induction false} ElseTakesOperators(c: Chain, y: Chain, n: Chain, rest: Stream)
    requires |c.ops| == |c.operands| && |y.ops| == |y.operands| && |n.ops| == |n.operands|
    requires IsCloser(Peek(rest)) || Peek(rest) == TQuestion
    ensures ParseNud(Tok(TIf, Tok(TLParen, Written(c, Tok(TRParen, Written(y, Tok(TElse, Written(n, rest)))))))) ==
      Ok(IfElse(Grouped(c), Grouped(y), Present(Grouped(n))), rest)
  {
    GroupedAsBranch(c);
    GroupedAsBranch(y);
    GroupedAsBranch(n);
    EndsBranch(y, TElse);
    EndsBranch(n, Peek(rest));
    GroupedSpells(n, rest);
    GroupedSpells(y, Tok(TElse, Written(n, rest)));
    GroupedSpells(c, Tok(TRParen, Written(y, Tok(TElse, Written(n, rest)))));
    IfParses(Grouped(c), Grouped(y), Grouped(n), rest);
  }
}
