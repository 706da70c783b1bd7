/**
 Lowering of expressions to the dialect's SSA ops (lib/Lower/ASTToMLIR.cpp): a
 width hint flows down the tree, ops are appended in evaluation order, and every
 value is named by the position of the op that defines it.
 */
module Lowering {
  import opened Wrappers
  import opened Powers
  import opened BitVectors
  import opened Literals
  import Syntax = ExprSyntax

  datatype Type = Bits(width: nat) | Struct(name: string) | Nothing

  datatype Expr =
    | Literal(lit: Lit)
    | Name(path: seq<string>)
    | Binary(op: Syntax.BinaryOp, lhs: Expr, rhs: Expr)
    | Unary(uop: Syntax.UnaryOp, sub: Expr)
    | Extend(signed: bool, to: Expr, sub: Expr)
    | Conditional(cond: Expr, thenE: Expr, elseE: Expr)
    | Slice(sub: Expr, hi: Expr, lo: Option<Expr>)
    | Concat(parts: Exprs)
    | Repeat(count: Expr, sub: Expr)
    | Unlowered                            // a call, an increment, a system variable

  datatype Exprs = Nil | Cons(first: Expr, more: Exprs)

  /** Operands are positions of earlier ops. */
  datatype Op =
    | Declare(signal: string, ty: Type)
    | FireProbe(target: string, ty: Type)
    | Constant(value: int, ty: Type)
    | BinaryOp(op: Syntax.BinaryOp, lhs: nat, rhs: nat, ty: Type)
    | UnaryOp(uop: Syntax.UnaryOp, arg: nat, ty: Type)
    | ExtendOp(signed: bool, arg: nat, ty: Type)
    | MuxOp(cond: nat, onTrue: nat, onFalse: nat, ty: Type)
    | ExtractOp(arg: nat, low: int, ty: Type)
    | ConcatOp(args: seq<nat>, ty: Type)
    | RepeatOp(arg: nat, count: int, ty: Type)

  /** The visitor's name tables. */
  datatype Tables = Tables(names: map<string, nat>, params: map<string, int>, controls: set<string>)

  // ----- The lowering -----

  datatype Lowered = Lowered(ops: seq<Op>, value: Option<nat>)

  function TypeAt(ops: seq<Op>, v: nat): Type {
    if v < |ops| then ops[v].ty else Nothing
  }

  function Push(ops: seq<Op>, op: Op): Lowered {
    Lowered(ops + [op], Some(|ops|))
  }

  /** An explicit width wins, then a bits hint, then the least width that holds the value. */
  function LiteralWidth(n: Numeral, hint: Option<Type>): nat
    requires n.Numeral?
  {
    if n.sized then n.width
    else if hint.Some? && hint.value.Bits? then hint.value.width
    else BitLength(n.value)
  }

  /** The width before `#` or `'`; anything but a plain decimal literal counts as 1. */
  function WidthArg(e: Expr): nat {
    if e.Literal? then WidthOf(e.lit) else 1
  }

  function IndexArg(e: Expr): int {
    if e.Literal? then IndexOf(e.lit) else 0
  }

  function CountArg(e: Expr, params: map<string, int>): int {
    if e.Literal? then IndexOf(e.lit)
    else if e.Name? && |e.path| == 1 && e.path[0] in params then params[e.path[0]]
    else 0
  }

  /** The width of a slice, truncated to 32 bits. */
  function SliceWidth(hi: int, lo: int): (w: nat) {
    Low32(hi - lo + 1)
  }

  function ResultType(op: Syntax.BinaryOp, ty: Type): Type {
    if KeepsWidth(op) then ty else Bits(1)
  }

  function UnaryType(op: Syntax.UnaryOp, ty: Type): Type {
    if UnaryKeepsWidth(op) then ty else Bits(1)
  }

  function Lower(e: Expr, hint: Option<Type>, ops: seq<Op>, t: Tables): Lowered
    decreases e
  {
    match e
    case Literal(lit) =>
      var n := NumeralOf(lit);
      if n.Malformed? then Lowered(ops, None)
      else Push(ops, Constant(n.value, Bits(LiteralWidth(n, hint))))
    case Name(path) =>
      if |path| != 1 then Lowered(ops, None)
      else if path[0] in t.controls then Lowered(ops + [FireProbe(path[0], Nothing)], None)
      else if path[0] !in t.names then Lowered(ops, None)
      else Lowered(ops, Some(t.names[path[0]]))
    case Binary(op, lhs, rhs) =>
      var a := Lower(lhs, hint, ops, t);
      if a.value.None? then a else
      var ty := TypeAt(a.ops, a.value.value);
      var b := Lower(rhs, Some(ty), a.ops, t);
      if b.value.None? then b
      else if !HasOp(op) then Lowered(b.ops, None)
      else Push(b.ops, BinaryOp(op, a.value.value, b.value.value, ResultType(op, ty)))
    case Unary(op, sub) =>
      var a := Lower(sub, hint, ops, t);
      if a.value.None? || op.Plus? then a
      else Push(a.ops, UnaryOp(op, a.value.value, UnaryType(op, TypeAt(a.ops, a.value.value))))
    case Extend(signed, to, sub) =>
      var ty := Bits(WidthArg(to));
      var a := Lower(sub, Some(ty), ops, t);
      if a.value.None? then a else Push(a.ops, ExtendOp(signed, a.value.value, ty))
    case Conditional(cond, thenE, elseE) =>
      var c := Lower(cond, Some(Bits(1)), ops, t);
      if c.value.None? then c else Branches(e, hint, c, t)
    case Slice(sub, hi, lo) =>
      FinishSlice(Lower(sub, None, ops, t), IndexArg(hi), if lo.Some? then IndexArg(lo.value) else IndexArg(hi))
    case Concat(parts) => LowerParts(parts, ops, t, [], 0)
    case Repeat(count, sub) =>
      var n := CountArg(count, t.params);
      if n < 1 then Lowered(ops, None) else FinishRepeat(Lower(sub, None, ops, t), n)
    case Unlowered => Lowered(ops, None)
  }

  /** The conditional after its condition `c` has been lowered. */
  function Branches(e: Expr, hint: Option<Type>, c: Lowered, t: Tables): Lowered
    requires e.Conditional? && c.value.Some?
    decreases e, 0
  {
    var a := Lower(e.thenE, hint, c.ops, t);
    if a.value.None? then a else
    var ty := TypeAt(a.ops, a.value.value);
    var b := Lower(e.elseE, Some(ty), a.ops, t);
    if b.value.None? then b
    else Push(b.ops, MuxOp(c.value.value, a.value.value, b.value.value, ty))
  }

  function FinishSlice(a: Lowered, h: int, l: int): Lowered {
    if a.value.None? then a
    else if h < l then Lowered(a.ops, None)
    else Push(a.ops, ExtractOp(a.value.value, l, Bits(SliceWidth(h, l))))
  }

  function FinishRepeat(a: Lowered, n: int): Lowered {
    if a.value.None? then a else
    var ty := TypeAt(a.ops, a.value.value);
    if !ty.Bits? then Lowered(a.ops, None)
    else Push(a.ops, RepeatOp(a.value.value, n, Bits(Low32(Times(n, ty.width)))))
  }

  /** Lowers the rest of a concatenation, given the values so far and their total width in 32 bits. */
  function LowerParts(parts: Exprs, ops: seq<Op>, t: Tables, args: seq<nat>, total: nat): Lowered
    decreases parts
  {
    match parts
    case Nil => if args == [] then Lowered(ops, None) else Push(ops, ConcatOp(args, Bits(total)))
    case Cons(e, more) =>
      var a := Lower(e, None, ops, t);
      if a.value.None? then a else
      var ty := TypeAt(a.ops, a.value.value);
      if !ty.Bits? then Lowered(a.ops, None)
      else LowerParts(more, a.ops, t, args + [a.value.value], Low32(total + ty.width))
  }

  // ----- What every run of the lowering keeps: it only appends, and operands come first -----

  ghost predicate Extends(a: seq<Op>, b: seq<Op>) {
    |a| <= |b| && forall i {:trigger a[i]} {:trigger b[i]} :: 0 <= i < |a| ==> a[i] == b[i]
  }

  ghost predicate InScope(t: Tables, n: nat) {
    forall x :: x in t.names ==> t.names[x] < n
  }

  ghost predicate Below(args: seq<nat>, n: nat) {
    forall i :: 0 <= i < |args| ==> args[i] < n
  }

  predicate Dominated(op: Op, n: nat) {
    match op
    case BinaryOp(_, l, r, _) => l < n && r < n
    case UnaryOp(_, a, _) => a < n
    case ExtendOp(_, a, _) => a < n
    case MuxOp(c, a, b, _) => c < n && a < n && b < n
    case ExtractOp(a, _, _) => a < n
    case ConcatOp(args, _) => forall i :: 0 <= i < |args| ==> args[i] < n
    case RepeatOp(a, _, _) => a < n
    case _ => true
  }

  /** Every op from position `from` on uses only values defined before it. */
  ghost predicate Ordered(ops: seq<Op>, from: nat) {
    forall i {:trigger ops[i]} :: from <= i < |ops| ==> Dominated(ops[i], i)
  }

  ghost predicate Appends(ops: seq<Op>, r: Lowered) {
    && Extends(ops, r.ops)
    && Ordered(r.ops, |ops|)
    && (r.value.Some? ==> r.value.value < |r.ops|)
  }

  lemma {:induction false} AppendsThen(ops: seq<Op>, a: Lowered, b: Lowered)
    requires Appends(ops, a) && Appends(a.ops, b)
    ensures Appends(ops, b)
  {
  }

  lemma {:induction false} AppendsOp(ops: seq<Op>, a: Lowered, op: Op)
    requires Appends(ops, a) && Dominated(op, |a.ops|)
    ensures Appends(ops, Push(a.ops, op))
  {
  }

  /** Main result: lowering only appends, every operand is defined earlier, and the value it returns is defined. */
  lemma {:induction false} LowerAppends(e: Expr, hint: Option<Type>, ops: seq<Op>, t: Tables)
    requires InScope(t, |ops|)
    ensures Appends(ops, Lower(e, hint, ops, t))
    decreases e
  {
    match e
    case Binary(_, _, _) => BinaryAppends(e, hint, ops, t);
    case Unary(op, sub) =>
      LowerAppends(sub, hint, ops, t);
      var a := Lower(sub, hint, ops, t);
      if a.value.Some? {
        AppendsOp(ops, a, UnaryOp(op, a.value.value, UnaryType(op, TypeAt(a.ops, a.value.value))));
      }
    case Extend(signed, to, sub) =>
      var ty := Bits(WidthArg(to));
      LowerAppends(sub, Some(ty), ops, t);
      var a := Lower(sub, Some(ty), ops, t);
      if a.value.Some? {
        AppendsOp(ops, a, ExtendOp(signed, a.value.value, ty));
      }
    case Conditional(_, _, _) => ConditionalAppends(e, hint, ops, t);
    case Slice(sub, hi, lo) =>
      LowerAppends(sub, None, ops, t);
      var a := Lower(sub, None, ops, t);
      if a.value.Some? {
        var h := IndexArg(hi);
        var l := if lo.Some? then IndexArg(lo.value) else h;
        AppendsOp(ops, a, ExtractOp(a.value.value, l, Bits(SliceWidth(h, l))));
      }
    case Concat(parts) => PartsAppend(parts, ops, t, [], 0);
    case Repeat(count, sub) =>
      LowerAppends(sub, None, ops, t);
      var a := Lower(sub, None, ops, t);
      if a.value.Some? {
        var n := CountArg(count, t.params);
        var ty := TypeAt(a.ops, a.value.value);
        if n >= 1 && ty.Bits? {
          AppendsOp(ops, a, RepeatOp(a.value.value, n, Bits(Low32(Times(n, ty.width)))));
        }
      }
    case _ =>
  }

  lemma {:induction false} BinaryAppends(e: Expr, hint: Option<Type>, ops: seq<Op>, t: Tables)
    requires InScope(t, |ops|) && e.Binary?
    ensures Appends(ops, Lower(e, hint, ops, t))
    decreases e, 0
  {
    LowerAppends(e.lhs, hint, ops, t);
    var a := Lower(e.lhs, hint, ops, t);
    if a.value.Some? {
      var ty := TypeAt(a.ops, a.value.value);
      LowerAppends(e.rhs, Some(ty), a.ops, t);
      var b := Lower(e.rhs, Some(ty), a.ops, t);
      AppendsThen(ops, a, b);
      if b.value.Some? {
        AppendsOp(ops, b, BinaryOp(e.op, a.value.value, b.value.value, ResultType(e.op, ty)));
      }
    }
  }

  lemma {:induction false} ConditionalAppends(e: Expr, hint: Option<Type>, ops: seq<Op>, t: Tables)
    requires InScope(t, |ops|) && e.Conditional?
    ensures Appends(ops, Lower(e, hint, ops, t))
    decreases e, 0
  {
    LowerAppends(e.cond, Some(Bits(1)), ops, t);
    var c := Lower(e.cond, Some(Bits(1)), ops, t);
    if c.value.Some? {
      LowerAppends(e.thenE, hint, c.ops, t);
      var a := Lower(e.thenE, hint, c.ops, t);
      AppendsThen(ops, c, a);
      if a.value.Some? {
        var ty := TypeAt(a.ops, a.value.value);
        LowerAppends(e.elseE, Some(ty), a.ops, t);
        var b := Lower(e.elseE, Some(ty), a.ops, t);
        AppendsThen(ops, a, b);
        if b.value.Some? {
          AppendsOp(ops, b, MuxOp(c.value.value, a.value.value, b.value.value, ty));
        }
      }
    }
  }

  lemma {:induction false} PartsAppend(parts: Exprs, ops: seq<Op>, t: Tables, args: seq<nat>, total: nat)
    requires InScope(t, |ops|) && Below(args, |ops|)
    ensures Appends(ops, LowerParts(parts, ops, t, args, total))
    decreases parts
  {
    if parts.Nil? {
      if args != [] {
        AppendsOp(ops, Lowered(ops, None), ConcatOp(args, Bits(total)));
      }
    } else {
      LowerAppends(parts.first, None, ops, t);
      var a := Lower(parts.first, None, ops, t);
      if a.value.Some? {
        var ty := TypeAt(a.ops, a.value.value);
        if ty.Bits? {
          PartsAppend(parts.more, a.ops, t, args + [a.value.value], Low32(total + ty.width));
          AppendsThen(ops, a, LowerParts(parts.more, a.ops, t, args + [a.value.value], Low32(total + ty.width)));
        }
      }
    }
  }

  // ----- Width rules of the ops -----

  /** The constant's 64-bit pattern fits the width; from 64 bits on every pattern does. */
  predicate ConstantFits(value: int, width: nat) {
    width >= 64 || Low64(value) < Pow2(width)
  }

  predicate BinaryRule(op: Syntax.BinaryOp, x: Type, y: Type) {
    HasOp(op) && x.Bits? && x == y && (IsLogical(op) ==> x.width == 1)
  }

  predicate UnaryRule(op: Syntax.UnaryOp, x: Type) {
    x.Bits? && (op.LogicalNot? ==> x.width == 1)
  }

  /** The operands' widths, added up without bound; nothing for an operand that is not bits. */
  function TotalWidth(ops: seq<Op>, args: seq<nat>): Option<nat> {
    if args == [] then Some(0) else
    var front := TotalWidth(ops, args[..|args| - 1]);
    var ty := TypeAt(ops, args[|args| - 1]);
    if front.Some? && ty.Bits? then Some(front.value + ty.width) else None
  }

  /** What the op verifiers accept: a concatenation's width is checked in 32 bits, a repetition's in 64. */
  predicate OpOk(ops: seq<Op>, op: Op) {
    match op
    case Declare(_, _) => true
    case FireProbe(_, _) => true
    case Constant(v, ty) => ty.Bits? && ConstantFits(v, ty.width)
    case BinaryOp(bop, l, r, ty) =>
      BinaryRule(bop, TypeAt(ops, l), TypeAt(ops, r)) && ty == ResultType(bop, TypeAt(ops, l))
    case UnaryOp(uop, a, ty) => UnaryRule(uop, TypeAt(ops, a)) && ty == UnaryType(uop, TypeAt(ops, a))
    case ExtendOp(_, a, ty) => ty.Bits? && TypeAt(ops, a).Bits? && TypeAt(ops, a).width <= ty.width
    case MuxOp(c, a, b, ty) =>
      TypeAt(ops, c) == Bits(1) && !ty.Nothing? && TypeAt(ops, a) == ty && TypeAt(ops, b) == ty
    case ExtractOp(a, low, ty) =>
      ty.Bits? && TypeAt(ops, a).Bits? && 0 <= low && low + ty.width <= TypeAt(ops, a).width
    case ConcatOp(args, ty) =>
      args != [] && ty.Bits? && TotalWidth(ops, args).Some? && ty.width == Low32(TotalWidth(ops, args).value)
    case RepeatOp(a, n, ty) =>
      ty.Bits? && TypeAt(ops, a).Bits? && n >= 1 && ty.width == Low64(Times(n, TypeAt(ops, a).width))
  }

  /** Every op from position `from` on meets its width rule. */
  ghost predicate AllOk(ops: seq<Op>, from: nat) {
    forall i {:trigger ops[i]} :: from <= i < |ops| ==> OpOk(ops, ops[i])
  }

  lemma {:induction false} TotalWidthStable(a: seq<Op>, b: seq<Op>, args: seq<nat>)
    requires Extends(a, b) && Below(args, |a|)
    ensures TotalWidth(a, args) == TotalWidth(b, args)
    decreases |args|
  {
    if args != [] {
      TotalWidthStable(a, b, args[..|args| - 1]);
    }
  }

  lemma {:induction false} OkStable(a: seq<Op>, b: seq<Op>, op: Op)
    requires Extends(a, b) && Dominated(op, |a|)
    ensures OpOk(a, op) == OpOk(b, op)
  {
    if op.ConcatOp? {
      TotalWidthStable(a, b, op.args);
    }
  }

  lemma {:induction false} OkSplits(a: seq<Op>, b: seq<Op>, from: nat)
    requires Extends(a, b) && Ordered(a, from) && from <= |a|
    ensures AllOk(b, from) <==> AllOk(a, from) && AllOk(b, |a|)
  {
    forall i | from <= i < |a| ensures OpOk(a, a[i]) == OpOk(b, b[i]) {
      DominatedLater(a[i], i, |a|);
      OkStable(a, b, a[i]);
    }
  }

  lemma {:induction false} DominatedLater(op: Op, m: nat, n: nat)
    requires Dominated(op, m) && m <= n
    ensures Dominated(op, n)
  {
  }

  lemma {:induction false} OkPush(a: seq<Op>, op: Op, from: nat)
    requires Ordered(a, from) && from <= |a| && Dominated(op, |a|)
    ensures AllOk(a + [op], from) <==> AllOk(a, from) && OpOk(a, op)
  {
    var b := a + [op];
    OkSplits(a, b, from);
    OkStable(a, b, op);
    assert b[|a|] == op;
  }

  // ----- The type checker the lowering and the width rules amount to -----

  datatype Val = Val(ty: Type, bits: nat)

  /** What the names in scope stand for. */
  datatype Scope = Scope(values: map<string, Val>, params: map<string, int>, controls: set<string>)

  function TypeOf(e: Expr, hint: Option<Type>, s: Scope): Option<Type>
    decreases e
  {
    match e
    case Literal(lit) =>
      var n := NumeralOf(lit);
      if n.Malformed? then None else
      var w := LiteralWidth(n, hint);
      if ConstantFits(n.value, w) then Some(Bits(w)) else None
    case Name(path) =>
      if |path| == 1 && path[0] !in s.controls && path[0] in s.values then Some(s.values[path[0]].ty) else None
    case Binary(op, lhs, rhs) =>
      var x := TypeOf(lhs, hint, s);
      if x.None? then None else
      var y := TypeOf(rhs, x, s);
      if y.Some? && BinaryRule(op, x.value, y.value) then Some(ResultType(op, x.value)) else None
    case Unary(op, sub) =>
      var x := TypeOf(sub, hint, s);
      if x.None? || op.Plus? then x
      else if UnaryRule(op, x.value) then Some(UnaryType(op, x.value)) else None
    case Extend(_, to, sub) =>
      var w := WidthArg(to);
      var x := TypeOf(sub, Some(Bits(w)), s);
      if x.Some? && x.value.Bits? && x.value.width <= w then Some(Bits(w)) else None
    case Conditional(cond, thenE, elseE) =>
      var c := TypeOf(cond, Some(Bits(1)), s);
      if c != Some(Bits(1)) then None else
      var x := TypeOf(thenE, hint, s);
      if x.None? || x.value.Nothing? then None
      else if TypeOf(elseE, x, s) == x then x else None
    case Slice(sub, hi, lo) =>
      var x := TypeOf(sub, None, s);
      var h := IndexArg(hi);
      var l := if lo.Some? then IndexArg(lo.value) else h;
      if x.Some? && x.value.Bits? && 0 <= l <= h && l + SliceWidth(h, l) <= x.value.width
      then Some(Bits(SliceWidth(h, l))) else None
    case Concat(parts) =>
      var total := PartsWidth(parts, s);
      if parts.Cons? && total.Some? then Some(Bits(Low32(total.value))) else None
    case Repeat(count, sub) =>
      var n := CountArg(count, s.params);
      var x := TypeOf(sub, None, s);
      if n >= 1 && x.Some? && x.value.Bits? && Low64(Times(n, x.value.width)) < TWO32
      then Some(Bits(Low64(Times(n, x.value.width)))) else None
    case Unlowered => None
  }

  function PartsWidth(parts: Exprs, s: Scope): Option<nat>
    decreases parts
  {
    match parts
    case Nil => Some(0)
    case Cons(e, more) =>
      var x := TypeOf(e, None, s);
      var rest := PartsWidth(more, s);
      if x.Some? && x.value.Bits? && rest.Some? then Some(x.value.width + rest.value) else None
  }

  /** The tables and the scope agree on which names there are and on their types. */
  ghost predicate Typed(s: Scope, t: Tables, ops: seq<Op>) {
    && t.params == s.params && t.controls == s.controls
    && t.names.Keys == s.values.Keys
    && forall x :: x in t.names ==> t.names[x] < |ops| && TypeAt(ops, t.names[x]) == s.values[x].ty
  }

  lemma {:induction false} TypedStable(s: Scope, t: Tables, a: seq<Op>, b: seq<Op>)
    requires Typed(s, t, a) && Extends(a, b)
    ensures Typed(s, t, b)
  {
  }

  /** A value came out and every op appended for it meets its rule. */
  ghost predicate Accepted(ops: seq<Op>, r: Lowered) {
    r.value.Some? && AllOk(r.ops, |ops|)
  }

  ghost predicate Agrees(ops: seq<Op>, r: Lowered, ty: Option<Type>) {
    && Appends(ops, r)
    && (Accepted(ops, r) <==> ty.Some?)
    && (ty.Some? ==> TypeAt(r.ops, r.value.value) == ty.value)
  }

  /** A failed or refused operand makes the whole refused. */
  lemma {:induction false} RefusedStays(ops: seq<Op>, a: Lowered, r: Lowered)
    requires Appends(ops, a) && Extends(a.ops, r.ops) && a.value.Some? && !Accepted(ops, a)
    ensures !Accepted(ops, r)
  {
    OkSplits(a.ops, r.ops, |ops|);
  }

  lemma {:induction false} AgreesOp(ops: seq<Op>, a: Lowered, op: Op, ty: Option<Type>)
    requires Agrees(ops, a, ty) && a.value.Some? && Dominated(op, |a.ops|)
    ensures Agrees(ops, Push(a.ops, op), if ty.Some? && OpOk(a.ops, op) then Some(op.ty) else None)
  {
    AppendsOp(ops, a, op);
    OkPush(a.ops, op, |ops|);
  }

  /** Lowering a second operand after an accepted first one. */
  lemma {:induction false} AgreesThen(ops: seq<Op>, a: Lowered, b: Lowered, x: Type, y: Option<Type>)
    requires Agrees(ops, a, Some(x)) && Agrees(a.ops, b, y)
    ensures Agrees(ops, b, y)
    ensures TypeAt(b.ops, a.value.value) == x
  {
    AppendsThen(ops, a, b);
    OkSplits(a.ops, b.ops, |ops|);
  }

  /** Main result: lowering succeeds with every op within its width rule if and only if the expression type-checks. */
  lemma {:induction false} LowersIffTyped(e: Expr, hint: Option<Type>, ops: seq<Op>, t: Tables, s: Scope)
    requires Typed(s, t, ops)
    ensures Agrees(ops, Lower(e, hint, ops, t), TypeOf(e, hint, s))
    decreases e
  {
    match e
    case Literal(_) => LiteralIffTyped(e, hint, ops, t, s);
    case Name(_) => NameIffTyped(e, hint, ops, t, s);
    case Binary(_, _, _) => BinaryIffTyped(e, hint, ops, t, s);
    case Unary(_, _) => UnaryIffTyped(e, hint, ops, t, s);
    case Extend(_, _, _) => ExtendIffTyped(e, hint, ops, t, s);
    case Conditional(_, _, _) => ConditionalIffTyped(e, hint, ops, t, s);
    case Slice(_, _, _) => SliceIffTyped(e, hint, ops, t, s);
    case Concat(parts) => PartsIffTyped(parts, ops, t, s, [], 0, 0);
    case Repeat(_, _) => RepeatIffTyped(e, hint, ops, t, s);
    case Unlowered =>
  }

  lemma {:induction false} LiteralIffTyped(e: Expr, hint: Option<Type>, ops: seq<Op>, t: Tables, s: Scope)
    requires Typed(s, t, ops) && e.Literal?
    ensures Agrees(ops, Lower(e, hint, ops, t), TypeOf(e, hint, s))
  {
    var n := NumeralOf(e.lit);
    if n.Numeral? {
      var op := Constant(n.value, Bits(LiteralWidth(n, hint)));
      AppendsOp(ops, Lowered(ops, None), op);
      OkPush(ops, op, |ops|);
    }
  }

  lemma {:induction false} NameIffTyped(e: Expr, hint: Option<Type>, ops: seq<Op>, t: Tables, s: Scope)
    requires Typed(s, t, ops) && e.Name?
    ensures Agrees(ops, Lower(e, hint, ops, t), TypeOf(e, hint, s))
  {
    LowerAppends(e, hint, ops, t);
  }

  lemma {:induction false} BinaryIffTyped(e: Expr, hint: Option<Type>, ops: seq<Op>, t: Tables, s: Scope)
    requires Typed(s, t, ops) && e.Binary?
    ensures Agrees(ops, Lower(e, hint, ops, t), TypeOf(e, hint, s))
    decreases e, 0
  {
    LowerAppends(e, hint, ops, t);
    LowersIffTyped(e.lhs, hint, ops, t, s);
    var a := Lower(e.lhs, hint, ops, t);
    var x := TypeOf(e.lhs, hint, s);
    if a.value.Some? {
      var ty := TypeAt(a.ops, a.value.value);
      TypedStable(s, t, ops, a.ops);
      LowersIffTyped(e.rhs, Some(ty), a.ops, t, s);
      var b := Lower(e.rhs, Some(ty), a.ops, t);
      if x.None? {
        RefusedStays(ops, a, Lower(e, hint, ops, t));
      } else {
        AgreesThen(ops, a, b, ty, TypeOf(e.rhs, x, s));
        if b.value.Some? && HasOp(e.op) {
          AgreesOp(ops, b, BinaryOp(e.op, a.value.value, b.value.value, ResultType(e.op, ty)), TypeOf(e.rhs, x, s));
        }
      }
    }
  }

  lemma {:induction false} UnaryIffTyped(e: Expr, hint: Option<Type>, ops: seq<Op>, t: Tables, s: Scope)
    requires Typed(s, t, ops) && e.Unary?
    ensures Agrees(ops, Lower(e, hint, ops, t), TypeOf(e, hint, s))
    decreases e, 0
  {
    LowersIffTyped(e.sub, hint, ops, t, s);
    var a := Lower(e.sub, hint, ops, t);
    if a.value.Some? && !e.uop.Plus? {
      var op := UnaryOp(e.uop, a.value.value, UnaryType(e.uop, TypeAt(a.ops, a.value.value)));
      AgreesOp(ops, a, op, TypeOf(e.sub, hint, s));
    }
  }

  lemma {:induction false} ExtendIffTyped(e: Expr, hint: Option<Type>, ops: seq<Op>, t: Tables, s: Scope)
    requires Typed(s, t, ops) && e.Extend?
    ensures Agrees(ops, Lower(e, hint, ops, t), TypeOf(e, hint, s))
    decreases e, 0
  {
    var ty := Bits(WidthArg(e.to));
    LowersIffTyped(e.sub, Some(ty), ops, t, s);
    var a := Lower(e.sub, Some(ty), ops, t);
    if a.value.Some? {
      AgreesOp(ops, a, ExtendOp(e.signed, a.value.value, ty), TypeOf(e.sub, Some(ty), s));
    }
  }

  lemma {:induction false} SliceIffTyped(e: Expr, hint: Option<Type>, ops: seq<Op>, t: Tables, s: Scope)
    requires Typed(s, t, ops) && e.Slice?
    ensures Agrees(ops, Lower(e, hint, ops, t), TypeOf(e, hint, s))
    decreases e, 0
  {
    LowersIffTyped(e.sub, None, ops, t, s);
    var a := Lower(e.sub, None, ops, t);
    var h := IndexArg(e.hi);
    var l := if e.lo.Some? then IndexArg(e.lo.value) else h;
    if a.value.Some? && l <= h {
      AgreesOp(ops, a, ExtractOp(a.value.value, l, Bits(SliceWidth(h, l))), TypeOf(e.sub, None, s));
    }
  }

  lemma {:induction false} RepeatIffTyped(e: Expr, hint: Option<Type>, ops: seq<Op>, t: Tables, s: Scope)
    requires Typed(s, t, ops) && e.Repeat?
    ensures Agrees(ops, Lower(e, hint, ops, t), TypeOf(e, hint, s))
    decreases e, 0
  {
    LowersIffTyped(e.sub, None, ops, t, s);
    var a := Lower(e.sub, None, ops, t);
    var n := CountArg(e.count, t.params);
    if n >= 1 && a.value.Some? && TypeAt(a.ops, a.value.value).Bits? {
      var w := Times(n, TypeAt(a.ops, a.value.value).width);
      Low32OfLow64(w);
      AgreesOp(ops, a, RepeatOp(a.value.value, n, Bits(Low32(w))), TypeOf(e.sub, None, s));
    }
  }

  lemma {:induction false} ConditionalIffTyped(e: Expr, hint: Option<Type>, ops: seq<Op>, t: Tables, s: Scope)
    requires Typed(s, t, ops) && e.Conditional?
    ensures Agrees(ops, Lower(e, hint, ops, t), TypeOf(e, hint, s))
    decreases e, 1
  {
    LowerAppends(e, hint, ops, t);
    LowersIffTyped(e.cond, Some(Bits(1)), ops, t, s);
    var c := Lower(e.cond, Some(Bits(1)), ops, t);
    if c.value.Some? {
      TypedStable(s, t, ops, c.ops);
      BranchesAppend(e, hint, c, t);
      if TypeOf(e.cond, Some(Bits(1)), s).None? {
        RefusedStays(ops, c, Branches(e, hint, c, t));
      } else {
        BranchesIffTyped(e, hint, ops, t, s);
      }
    }
  }

  lemma {:induction false} BranchesAppend(e: Expr, hint: Option<Type>, c: Lowered, t: Tables)
    requires e.Conditional? && c.value.Some? && InScope(t, |c.ops|)
    ensures Extends(c.ops, Branches(e, hint, c, t).ops)
  {
    LowerAppends(e.thenE, hint, c.ops, t);
    var a := Lower(e.thenE, hint, c.ops, t);
    if a.value.Some? {
      LowerAppends(e.elseE, Some(TypeAt(a.ops, a.value.value)), a.ops, t);
    }
  }

  lemma {:induction false} BranchesIffTyped(e: Expr, hint: Option<Type>, ops: seq<Op>, t: Tables, s: Scope)
    requires Typed(s, t, ops) && e.Conditional?
    requires
      var c := Lower(e.cond, Some(Bits(1)), ops, t);
      c.value.Some? && Agrees(ops, c, TypeOf(e.cond, Some(Bits(1)), s)) && TypeOf(e.cond, Some(Bits(1)), s).Some?
    requires Appends(ops, Lower(e, hint, ops, t))
    ensures Agrees(ops, Lower(e, hint, ops, t), TypeOf(e, hint, s))
    decreases e, 0
  {
    var c := Lower(e.cond, Some(Bits(1)), ops, t);
    var z := TypeAt(c.ops, c.value.value);
    TypedStable(s, t, ops, c.ops);
    LowersIffTyped(e.thenE, hint, c.ops, t, s);
    var a := Lower(e.thenE, hint, c.ops, t);
    var x := TypeOf(e.thenE, hint, s);
    AgreesThen(ops, c, a, z, x);
    if a.value.Some? {
      var ty := TypeAt(a.ops, a.value.value);
      TypedStable(s, t, c.ops, a.ops);
      LowersIffTyped(e.elseE, Some(ty), a.ops, t, s);
      var b := Lower(e.elseE, Some(ty), a.ops, t);
      if x.None? {
        RefusedStays(ops, a, Branches(e, hint, c, t));
      } else {
        AgreesThen(ops, a, b, ty, TypeOf(e.elseE, x, s));
        if b.value.Some? {
          AgreesOp(ops, b, MuxOp(c.value.value, a.value.value, b.value.value, ty), TypeOf(e.elseE, x, s));
        }
      }
    }
  }

  /** `sum` is the unbounded width of the values so far. */
  lemma {:induction false} PartsIffTyped(parts: Exprs, ops: seq<Op>, t: Tables, s: Scope, args: seq<nat>, total: nat, sum: nat)
    requires Typed(s, t, ops) && Below(args, |ops|)
    requires TotalWidth(ops, args) == Some(sum) && total == Low32(sum)
    ensures Agrees(ops, LowerParts(parts, ops, t, args, total), PartsType(parts, s, args, sum))
    decreases parts, 2
  {
    if parts.Nil? {
      NoPartsLeft(ops, t, s, args, total, sum);
    } else {
      var a := Lower(parts.first, None, ops, t);
      LowersIffTyped(parts.first, None, ops, t, s);
      if a.value.Some? && TypeAt(a.ops, a.value.value).Bits? {
        var v, w := a.value.value, TypeAt(a.ops, a.value.value).width;
        Low32Adds(sum, w);
        RestOfParts(parts.more, ops, t, s, args, Low32(total + w), sum, a, v, w);
        WholeAgrees(parts, ops, t, s, args, total, sum, a, v, w);
      } else {
        PartStops(parts, ops, t, s, args, total, sum, a);
      }
    }
  }

  lemma {:induction false} NoPartsLeft(ops: seq<Op>, t: Tables, s: Scope, args: seq<nat>, total: nat, sum: nat)
    requires Below(args, |ops|) && TotalWidth(ops, args) == Some(sum) && total == Low32(sum)
    ensures Agrees(ops, LowerParts(Nil, ops, t, args, total), PartsType(Nil, s, args, sum))
  {
    if args != [] {
      var op := ConcatOp(args, Bits(total));
      AppendsOp(ops, Lowered(ops, None), op);
      OkPush(ops, op, |ops|);
    }
  }

  /** A part that fails or is not bits ends the lowering, and does not type-check as a part. */
  lemma {:induction false} PartStops(parts: Exprs, ops: seq<Op>, t: Tables, s: Scope, args: seq<nat>, total: nat, sum: nat, a: Lowered)
    requires parts.Cons? && a == Lower(parts.first, None, ops, t) && Agrees(ops, a, TypeOf(parts.first, None, s))
    requires !(a.value.Some? && TypeAt(a.ops, a.value.value).Bits?)
    ensures Agrees(ops, LowerParts(parts, ops, t, args, total), PartsType(parts, s, args, sum))
  {
  }

  /** The first part and the rest agree, so the whole does. */
  lemma {:induction false} WholeAgrees(parts: Exprs, ops: seq<Op>, t: Tables, s: Scope, args: seq<nat>, total: nat, sum: nat, a: Lowered, v: nat, w: nat)
    requires parts.Cons? && a == Lower(parts.first, None, ops, t) && a.value == Some(v) && TypeAt(a.ops, v) == Bits(w)
    requires Agrees(ops, a, TypeOf(parts.first, None, s))
    requires Agrees(a.ops, LowerParts(parts.more, a.ops, t, args + [v], Low32(total + w)), PartsType(parts.more, s, args + [v], sum + w))
    ensures Agrees(ops, LowerParts(parts, ops, t, args, total), PartsType(parts, s, args, sum))
  {
    PartsTypeSteps(parts, s, args, sum, v, w);
    LowerPartsSteps(parts, ops, t, args, total, a);
    RestAgrees(ops, a, LowerParts(parts, ops, t, args, total), TypeOf(parts.first, None, s),
               PartsType(parts.more, s, args + [v], sum + w), PartsType(parts, s, args, sum));
  }

  /** What the rest of a concatenation type-checks as. */
  function PartsType(parts: Exprs, s: Scope, args: seq<nat>, sum: nat): Option<Type> {
    var rest := PartsWidth(parts, s);
    if (args != [] || parts.Cons?) && rest.Some? then Some(Bits(Low32(sum + rest.value))) else None
  }

  lemma {:induction false} RestOfParts(more: Exprs, ops: seq<Op>, t: Tables, s: Scope, args: seq<nat>, total: nat, sum: nat, a: Lowered, v: nat, w: nat)
    requires Typed(s, t, ops) && Below(args, |ops|)
    requires TotalWidth(ops, args) == Some(sum) && total == Low32(sum + w)
    requires Appends(ops, a) && a.value == Some(v) && TypeAt(a.ops, v) == Bits(w)
    ensures Agrees(a.ops, LowerParts(more, a.ops, t, args + [v], total), PartsType(more, s, args + [v], sum + w))
    decreases more, 3
  {
    TypedStable(s, t, ops, a.ops);
    OneWidthMore(ops, a.ops, args, v, sum);
    PartsIffTyped(more, a.ops, t, s, args + [v], total, sum + w);
  }

  lemma {:induction false} LowerPartsSteps(parts: Exprs, ops: seq<Op>, t: Tables, args: seq<nat>, total: nat, a: Lowered)
    requires parts.Cons? && a == Lower(parts.first, None, ops, t)
    requires a.value.Some? && TypeAt(a.ops, a.value.value).Bits?
    ensures LowerParts(parts, ops, t, args, total) ==
      LowerParts(parts.more, a.ops, t, args + [a.value.value], Low32(total + TypeAt(a.ops, a.value.value).width))
  {
  }

  lemma {:induction false} PartsTypeSteps(parts: Exprs, s: Scope, args: seq<nat>, sum: nat, v: nat, w: nat)
    requires parts.Cons?
    requires TypeOf(parts.first, None, s).Some? ==> TypeOf(parts.first, None, s).value == Bits(w)
    ensures PartsType(parts, s, args, sum) ==
      if TypeOf(parts.first, None, s).Some? then PartsType(parts.more, s, args + [v], sum + w) else None
  {
  }

  lemma {:induction false} OneWidthMore(ops: seq<Op>, after: seq<Op>, args: seq<nat>, v: nat, sum: nat)
    requires Extends(ops, after) && Below(args, |ops|) && TotalWidth(ops, args) == Some(sum)
    requires v < |after| && TypeAt(after, v).Bits?
    ensures Below(args + [v], |after|)
    ensures TotalWidth(after, args + [v]) == Some(sum + TypeAt(after, v).width)
  {
    assert (args + [v])[..|args|] == args;
    TotalWidthStable(ops, after, args);
  }

  lemma {:induction false} RestAgrees(ops: seq<Op>, a: Lowered, r: Lowered, x: Option<Type>, y: Option<Type>, z: Option<Type>)
    requires Agrees(ops, a, x) && a.value.Some? && Agrees(a.ops, r, y)
    requires z == if x.Some? then y else None
    ensures Agrees(ops, r, z)
  {
    if x.None? {
      AppendsThen(ops, a, r);
      RefusedStays(ops, a, r);
    } else {
      AgreesThen(ops, a, r, x.value, y);
    }
  }
}
