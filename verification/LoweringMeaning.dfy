/**
 What expressions mean and what the lowered ops compute, and the proof that they
 are the same. The meaning follows the language: widths, indices and counts are
 the numbers written, not the defaults and 32-bit remainders the code falls back to.
 */
module LoweringMeaning {
  import opened Wrappers
  import opened Powers
  import opened BitVectors
  import opened Literals
  import opened Lowering
  import Syntax = ExprSyntax

  // ----- Running the ops -----

  function Width(ty: Type): nat {
    if ty.Bits? then ty.width else 0
  }

  function At(vals: seq<Val>, v: nat): Val {
    if v < |vals| then vals[v] else Val(Nothing, 0)
  }

  const EMPTY: Val := Val(Bits(0), 0)

  /** Concatenates two values; the first is the more significant. */
  function Join(x: Val, y: Val): Val {
    Val(Bits(Width(x.ty) + Width(y.ty)), Above(x.bits, y.bits, Width(y.ty)))
  }

  function Joined(vals: seq<Val>, args: seq<nat>): Val {
    if args == [] then EMPTY else Join(Joined(vals, args[..|args| - 1]), At(vals, args[|args| - 1]))
  }

  function Step(op: Op, vals: seq<Val>, signals: map<string, nat>): (r: Val)
    ensures r.ty == op.ty
  {
    match op
    case Declare(signal, ty) => Val(ty, if signal in signals then signals[signal] else 0)
    case FireProbe(_, ty) => Val(ty, 0)
    case Constant(v, ty) => Val(ty, Low64(v))
    case BinaryOp(bop, l, r, ty) => Val(ty, BinaryBits(bop, Width(At(vals, l).ty), At(vals, l).bits, At(vals, r).bits))
    case UnaryOp(uop, a, ty) => Val(ty, UnaryBits(uop, Width(At(vals, a).ty), At(vals, a).bits))
    case ExtendOp(signed, a, ty) => Val(ty, Extended(signed, At(vals, a), Width(ty)))
    case MuxOp(c, a, b, ty) => Val(ty, if At(vals, c).bits != 0 then At(vals, a).bits else At(vals, b).bits)
    case ExtractOp(a, low, ty) => Val(ty, if low < 0 then 0 else Extracted(At(vals, a).bits, low, Width(ty)))
    case ConcatOp(args, ty) => Val(ty, Joined(vals, args).bits)
    case RepeatOp(a, n, ty) => Val(ty, if n < 0 then 0 else Repeated(Width(At(vals, a).ty), At(vals, a).bits, n))
  }

  function Extended(signed: bool, x: Val, to: nat): nat {
    if signed then SignExtended(Width(x.ty), to, x.bits) else x.bits
  }

  /** A block of ops, the values of its signals, and a value for every op. */
  datatype Execution = Execution(ops: seq<Op>, signals: map<string, nat>, vals: seq<Val>) {
    /** Every op has the value its operands give it. */
    ghost predicate Valid() {
      && |vals| == |ops|
      && forall i {:trigger ops[i]} :: 0 <= i < |ops| ==> vals[i] == Step(ops[i], vals, signals)
    }
  }

  // ----- The meaning of an expression -----

  /** The number a plain decimal literal spells. */
  function Spelled(e: Expr): Option<nat> {
    if e.Literal? && e.lit.Spelling? && e.lit.plain then Some(e.lit.face) else None
  }

  /** A count is a plain decimal below 2^63 or a parameter. */
  function CountMeaning(e: Expr, params: map<string, int>): Option<int> {
    if Spelled(e).Some? then (if Spelled(e).value < TWO63 then Some(Spelled(e).value) else None)
    else if e.Name? && |e.path| == 1 && e.path[0] in params then Some(params[e.path[0]])
    else None
  }

  function Meaning(e: Expr, hint: Option<Type>, s: Scope): Option<Val>
    decreases e
  {
    match e
    case Literal(lit) => LiteralMeaning(lit, hint)
    case Name(path) =>
      if |path| == 1 && path[0] !in s.controls && path[0] in s.values then Some(s.values[path[0]]) else None
    case Binary(op, lhs, rhs) =>
      var x := Meaning(lhs, hint, s);
      if x.None? then None else
      var y := Meaning(rhs, Some(x.value.ty), s);
      if y.None? then None else BinaryMeaning(op, x.value, y.value)
    case Unary(op, sub) =>
      var x := Meaning(sub, hint, s);
      if x.None? || op.Plus? then x else UnaryMeaning(op, x.value)
    case Extend(signed, to, sub) =>
      var w := Spelled(to);
      if w.None? || !(1 <= w.value < TWO32) then None else
      var x := Meaning(sub, Some(Bits(w.value)), s);
      if x.None? then None else ExtendMeaning(signed, x.value, w.value)
    case Conditional(cond, thenE, elseE) =>
      var c := Meaning(cond, Some(Bits(1)), s);
      var x := Meaning(thenE, hint, s);
      if c.None? || x.None? then None else
      var y := Meaning(elseE, Some(x.value.ty), s);
      if y.None? then None else MuxMeaning(c.value, x.value, y.value)
    case Slice(sub, hi, lo) =>
      SliceMeaning(Meaning(sub, None, s), Spelled(hi), if lo.Some? then Spelled(lo.value) else Spelled(hi))
    case Concat(parts) =>
      var x := PartsMeaning(parts, s, EMPTY);
      if parts.Cons? && x.Some? && Width(x.value.ty) < TWO32 then x else None
    case Repeat(count, sub) => RepeatMeaning(CountMeaning(count, s.params), Meaning(sub, None, s))
    case Unlowered => None
  }

  /** A size is the one written; without one a bits hint wins, then the least width that holds the value. */
  function WrittenWidth(lit: Lit, hint: Option<Type>): nat
    requires lit.Spelling?
  {
    if lit.size.Some? then lit.size.value
    else if hint.Some? && hint.value.Bits? then hint.value.width
    else BitLength(lit.face)
  }

  /** The value is below 2^63 and the size, if any, from 1 to 2^32 - 1. */
  predicate WrittenLiteral(lit: Lit) {
    lit.Spelling? ==> lit.face < TWO63 && (lit.size.Some? ==> 1 <= lit.size.value < TWO32)
  }

  /** The value written, which must fit the width. */
  function LiteralMeaning(lit: Lit, hint: Option<Type>): Option<Val> {
    if lit.Unreadable? || !WrittenLiteral(lit) then None else
    var w := WrittenWidth(lit, hint);
    if lit.face < Pow2(w) then Some(Val(Bits(w), lit.face)) else None
  }

  function BinaryMeaning(op: Syntax.BinaryOp, x: Val, y: Val): Option<Val> {
    if BinaryRule(op, x.ty, y.ty)
    then Some(Val(ResultType(op, x.ty), BinaryBits(op, Width(x.ty), x.bits, y.bits))) else None
  }

  function UnaryMeaning(op: Syntax.UnaryOp, x: Val): Option<Val> {
    if UnaryRule(op, x.ty) then Some(Val(UnaryType(op, x.ty), UnaryBits(op, Width(x.ty), x.bits))) else None
  }

  function ExtendMeaning(signed: bool, x: Val, w: nat): Option<Val> {
    if x.ty.Bits? && x.ty.width <= w then Some(Val(Bits(w), Extended(signed, x, w))) else None
  }

  function MuxMeaning(c: Val, x: Val, y: Val): Option<Val> {
    if c.ty == Bits(1) && !x.ty.Nothing? && y.ty == x.ty then Some(if c.bits != 0 then x else y) else None
  }

  function RepeatMeaning(n: Option<int>, x: Option<Val>): Option<Val> {
    if n.Some? && n.value >= 1 && x.Some? && x.value.ty.Bits? && Times(n.value, x.value.ty.width) < TWO32
    then Some(Val(Bits(Times(n.value, x.value.ty.width)), Repeated(x.value.ty.width, x.value.bits, n.value)))
    else None
  }

  /** Bits `h` down to `l`, which must exist. */
  function SliceMeaning(x: Option<Val>, h: Option<nat>, l: Option<nat>): Option<Val> {
    if x.Some? && x.value.ty.Bits? && h.Some? && l.Some? && l.value <= h.value < x.value.ty.width && h.value + 1 < TWO32
    then Some(Val(Bits(h.value - l.value + 1), Extracted(x.value.bits, l.value, h.value - l.value + 1)))
    else None
  }

  /** `acc` followed by the values of the parts. */
  function PartsMeaning(parts: Exprs, s: Scope, acc: Val): Option<Val>
    decreases parts
  {
    match parts
    case Nil => Some(acc)
    case Cons(e, more) =>
      var x := Meaning(e, None, s);
      if x.Some? && x.value.ty.Bits? then PartsMeaning(more, s, Join(acc, x.value)) else None
  }

  // ----- The ops compute the meaning -----

  /** The names in the tables have the values the scope gives them. */
  ghost predicate Holds(t: Tables, s: Scope, vals: seq<Val>) {
    && t.params == s.params && t.controls == s.controls
    && t.names.Keys == s.values.Keys
    && forall n :: n in t.names ==> At(vals, t.names[n]) == s.values[n]
  }

  /** `x` executes a block in which the names have their values by the end of `ops`. */
  ghost predicate Ready(ops: seq<Op>, t: Tables, s: Scope, x: Execution) {
    x.Valid() && Holds(t, s, x.vals) && InScope(t, |ops|)
  }

  /** In `x` the lowering's value is `m`. */
  ghost predicate Computes(r: Lowered, x: Execution, m: Val) {
    && r.value.Some?
    && r.value.value < |r.ops|
    && At(x.vals, r.value.value) == m
    && TypeAt(r.ops, r.value.value) == m.ty
  }

  lemma {:induction false} ComputesOp(ops: seq<Op>, op: Op, x: Execution)
    requires x.Valid() && Extends(ops + [op], x.ops)
    ensures Computes(Push(ops, op), x, Step(op, x.vals, x.signals))
  {
    assert (ops + [op])[|ops|] == op;
    assert x.ops[|ops|] == op;
  }

  lemma {:induction false} ExtendsTrans(a: seq<Op>, b: seq<Op>, c: seq<Op>)
    requires Extends(a, b) && Extends(b, c)
    ensures Extends(a, c)
  {
  }

  /** The part of a block a sub-expression was lowered to is there, and the names still hold. */
  lemma {:induction false} Within(e: Expr, hint: Option<Type>, ops: seq<Op>, t: Tables, s: Scope, x: Execution, whole: seq<Op>)
    requires Ready(ops, t, s, x) && Extends(Lower(e, hint, ops, t).ops, whole) && Extends(whole, x.ops)
    ensures Extends(Lower(e, hint, ops, t).ops, x.ops)
    ensures Ready(Lower(e, hint, ops, t).ops, t, s, x)
  {
    LowerAppends(e, hint, ops, t);
    ExtendsTrans(Lower(e, hint, ops, t).ops, whole, x.ops);
  }

  /** Main result: where the expression has a meaning, the lowered ops compute it, and their type is its type. */
  lemma {:induction false} LowerComputes(e: Expr, hint: Option<Type>, ops: seq<Op>, t: Tables, s: Scope, x: Execution)
    requires Ready(ops, t, s, x) && Extends(Lower(e, hint, ops, t).ops, x.ops)
    requires Meaning(e, hint, s).Some?
    ensures Computes(Lower(e, hint, ops, t), x, Meaning(e, hint, s).value)
    decreases e
  {
    match e
    case Literal(_) => LiteralComputes(e, hint, ops, t, s, x);
    case Name(_) => NameComputes(e, hint, ops, t, s, x);
    case Binary(_, _, _) => BinaryComputes(e, hint, ops, t, s, x);
    case Unary(_, _) => UnaryComputes(e, hint, ops, t, s, x);
    case Extend(_, _, _) => ExtendComputes(e, hint, ops, t, s, x);
    case Conditional(_, _, _) => ConditionalComputes(e, hint, ops, t, s, x);
    case Slice(_, _, _) => SliceComputes(e, hint, ops, t, s, x);
    case Concat(parts) => PartsCompute(parts, ops, t, s, x, [], 0, EMPTY);
    case Repeat(_, _) => RepeatComputes(e, hint, ops, t, s, x);
  }

  lemma {:induction false} LiteralComputes(e: Expr, hint: Option<Type>, ops: seq<Op>, t: Tables, s: Scope, x: Execution)
    requires e.Literal? && Ready(ops, t, s, x) && Extends(Lower(e, hint, ops, t).ops, x.ops)
    requires Meaning(e, hint, s).Some?
    ensures Computes(Lower(e, hint, ops, t), x, Meaning(e, hint, s).value)
    decreases e, 0
  {
    var n := NumeralOf(e.lit);
    LiteralResolves(e.lit, hint);
    ComputesOp(ops, Constant(n.value, Bits(LiteralWidth(n, hint))), x);
  }

  /** A literal within the bounds is read at its face value, and its constant is accepted exactly if the value fits. */
  lemma {:induction false} LiteralResolves(lit: Lit, hint: Option<Type>)
    requires lit.Spelling? && WrittenLiteral(lit)
    ensures NumeralOf(lit).Numeral? && NumeralOf(lit).value == lit.face == Low64(lit.face)
    ensures LiteralWidth(NumeralOf(lit), hint) == WrittenWidth(lit, hint)
    ensures ConstantFits(lit.face, WrittenWidth(lit, hint)) <==> lit.face < Pow2(WrittenWidth(lit, hint))
  {
    var w := WrittenWidth(lit, hint);
    if w >= 64 {
      Pow2Grows(64, w);
      Pow2Is64();
    }
  }

  lemma {:induction false} NameComputes(e: Expr, hint: Option<Type>, ops: seq<Op>, t: Tables, s: Scope, x: Execution)
    requires e.Name? && Ready(ops, t, s, x) && Extends(Lower(e, hint, ops, t).ops, x.ops)
    requires Meaning(e, hint, s).Some?
    ensures Computes(Lower(e, hint, ops, t), x, Meaning(e, hint, s).value)
    decreases e, 0
  {
    var v := t.names[e.path[0]];
    assert x.ops[v] == ops[v];
  }

  lemma {:induction false} UnaryComputes(e: Expr, hint: Option<Type>, ops: seq<Op>, t: Tables, s: Scope, x: Execution)
    requires e.Unary? && Ready(ops, t, s, x) && Extends(Lower(e, hint, ops, t).ops, x.ops)
    requires Meaning(e, hint, s).Some?
    ensures Computes(Lower(e, hint, ops, t), x, Meaning(e, hint, s).value)
    decreases e, 0
  {
    var a := Lower(e.sub, hint, ops, t);
    Within(e.sub, hint, ops, t, s, x, Lower(e, hint, ops, t).ops);
    LowerComputes(e.sub, hint, ops, t, s, x);
    if !e.uop.Plus? {
      ComputesOp(a.ops, UnaryOp(e.uop, a.value.value, UnaryType(e.uop, TypeAt(a.ops, a.value.value))), x);
    }
  }

  /** Small enough written numbers are the numbers the code resolves. */
  lemma {:induction false} ResolvesAsSpelled(e: Expr)
    requires Spelled(e).Some?
    ensures Spelled(e).value < TWO63 ==> IndexArg(e) == Spelled(e).value
    ensures 1 <= Spelled(e).value < TWO32 ==> WidthArg(e) == Spelled(e).value
  {
  }

  lemma {:induction false} ExtendComputes(e: Expr, hint: Option<Type>, ops: seq<Op>, t: Tables, s: Scope, x: Execution)
    requires e.Extend? && Ready(ops, t, s, x) && Extends(Lower(e, hint, ops, t).ops, x.ops)
    requires Meaning(e, hint, s).Some?
    ensures Computes(Lower(e, hint, ops, t), x, Meaning(e, hint, s).value)
    decreases e, 0
  {
    ResolvesAsSpelled(e.to);
    var ty := Bits(WidthArg(e.to));
    var a := Lower(e.sub, Some(ty), ops, t);
    Within(e.sub, Some(ty), ops, t, s, x, Lower(e, hint, ops, t).ops);
    LowerComputes(e.sub, Some(ty), ops, t, s, x);
    ComputesOp(a.ops, ExtendOp(e.signed, a.value.value, ty), x);
  }

  lemma {:induction false} SliceComputes(e: Expr, hint: Option<Type>, ops: seq<Op>, t: Tables, s: Scope, x: Execution)
    requires e.Slice? && Ready(ops, t, s, x) && Extends(Lower(e, hint, ops, t).ops, x.ops)
    requires Meaning(e, hint, s).Some?
    ensures Computes(Lower(e, hint, ops, t), x, Meaning(e, hint, s).value)
    decreases e, 0
  {
    var a := Lower(e.sub, None, ops, t);
    Within(e.sub, None, ops, t, s, x, Lower(e, hint, ops, t).ops);
    LowerComputes(e.sub, None, ops, t, s, x);
    var h, l := SliceResolves(e, s);
    SliceLowers(e, hint, ops, t, h, l);
    SliceMeans(e, hint, s, h, l);
    ComputesOp(a.ops, ExtractOp(a.value.value, l, Bits(h - l + 1)), x);
  }

  lemma {:induction false} SliceLowers(e: Expr, hint: Option<Type>, ops: seq<Op>, t: Tables, h: nat, l: nat)
    requires e.Slice? && Lower(e.sub, None, ops, t).value.Some?
    requires IndexArg(e.hi) == h && (if e.lo.Some? then IndexArg(e.lo.value) == l else l == h)
    requires l <= h && SliceWidth(h, l) == h - l + 1
    ensures
      var a := Lower(e.sub, None, ops, t);
      Lower(e, hint, ops, t) == Push(a.ops, ExtractOp(a.value.value, l, Bits(h - l + 1)))
  {
  }

  lemma {:induction false} SliceMeans(e: Expr, hint: Option<Type>, s: Scope, h: nat, l: nat)
    requires e.Slice? && Meaning(e, hint, s).Some?
    requires Spelled(e.hi) == Some(h) && (if e.lo.Some? then Spelled(e.lo.value) == Some(l) else l == h)
    ensures Meaning(e.sub, None, s).Some? && l <= h
    ensures Meaning(e, hint, s).value == Val(Bits(h - l + 1), Extracted(Meaning(e.sub, None, s).value.bits, l, h - l + 1))
  {
    assert Meaning(e, hint, s) == SliceMeaning(Meaning(e.sub, None, s), Some(h), Some(l));
  }

  lemma {:induction false} SliceResolves(e: Expr, s: Scope) returns (h: nat, l: nat)
    requires e.Slice? && Meaning(e, None, s).Some?
    ensures Spelled(e.hi) == Some(h) && IndexArg(e.hi) == h
    ensures if e.lo.Some? then Spelled(e.lo.value) == Some(l) && IndexArg(e.lo.value) == l else l == h
    ensures l <= h && SliceWidth(h, l) == h - l + 1
  {
    h := Spelled(e.hi).value;
    ResolvesAsSpelled(e.hi);
    l := h;
    if e.lo.Some? {
      l := Spelled(e.lo.value).value;
      ResolvesAsSpelled(e.lo.value);
    }
  }

  lemma {:induction false} RepeatComputes(e: Expr, hint: Option<Type>, ops: seq<Op>, t: Tables, s: Scope, x: Execution)
    requires e.Repeat? && Ready(ops, t, s, x) && Extends(Lower(e, hint, ops, t).ops, x.ops)
    requires Meaning(e, hint, s).Some?
    ensures Computes(Lower(e, hint, ops, t), x, Meaning(e, hint, s).value)
    decreases e, 0
  {
    var n := CountArg(e.count, t.params);
    assert Some(n) == CountMeaning(e.count, s.params);
    var a := Lower(e.sub, None, ops, t);
    Within(e.sub, None, ops, t, s, x, Lower(e, hint, ops, t).ops);
    LowerComputes(e.sub, None, ops, t, s, x);
    var w := TypeAt(a.ops, a.value.value).width;
    ComputesOp(a.ops, RepeatOp(a.value.value, n, Bits(Low32(Times(n, w)))), x);
  }

  lemma {:induction false} BinaryComputes(e: Expr, hint: Option<Type>, ops: seq<Op>, t: Tables, s: Scope, x: Execution)
    requires e.Binary? && Ready(ops, t, s, x) && Extends(Lower(e, hint, ops, t).ops, x.ops)
    requires Meaning(e, hint, s).Some?
    ensures Computes(Lower(e, hint, ops, t), x, Meaning(e, hint, s).value)
    decreases e, 0
  {
    var whole := Lower(e, hint, ops, t).ops;
    var a, m := Lower(e.lhs, hint, ops, t), Meaning(e.lhs, hint, s).value;
    BinaryAppendsLhs(e, hint, ops, t);
    Within(e.lhs, hint, ops, t, s, x, whole);
    LowerComputes(e.lhs, hint, ops, t, s, x);
    var b := Lower(e.rhs, Some(m.ty), a.ops, t);
    Within(e.rhs, Some(m.ty), a.ops, t, s, x, whole);
    LowerComputes(e.rhs, Some(m.ty), a.ops, t, s, x);
    ComputesOp(b.ops, BinaryOp(e.op, a.value.value, b.value.value, ResultType(e.op, m.ty)), x);
  }

  lemma {:induction false} BinaryAppendsLhs(e: Expr, hint: Option<Type>, ops: seq<Op>, t: Tables)
    requires e.Binary? && InScope(t, |ops|)
    ensures Extends(Lower(e.lhs, hint, ops, t).ops, Lower(e, hint, ops, t).ops)
  {
    LowerAppends(e.lhs, hint, ops, t);
    var a := Lower(e.lhs, hint, ops, t);
    if a.value.Some? {
      LowerAppends(e.rhs, Some(TypeAt(a.ops, a.value.value)), a.ops, t);
    }
  }

  lemma {:induction false} ConditionalComputes(e: Expr, hint: Option<Type>, ops: seq<Op>, t: Tables, s: Scope, x: Execution)
    requires e.Conditional? && Ready(ops, t, s, x) && Extends(Lower(e, hint, ops, t).ops, x.ops)
    requires Meaning(e, hint, s).Some?
    ensures Computes(Lower(e, hint, ops, t), x, Meaning(e, hint, s).value)
    decreases e, 1
  {
    var c := Lower(e.cond, Some(Bits(1)), ops, t);
    LowerAppends(e.cond, Some(Bits(1)), ops, t);
    if c.value.Some? {
      BranchesAppend(e, hint, c, t);
    }
    Within(e.cond, Some(Bits(1)), ops, t, s, x, Lower(e, hint, ops, t).ops);
    LowerComputes(e.cond, Some(Bits(1)), ops, t, s, x);
    BranchesCompute(e, hint, c, t, s, x);
  }

  lemma {:induction false} BranchesCompute(e: Expr, hint: Option<Type>, c: Lowered, t: Tables, s: Scope, x: Execution)
    requires e.Conditional? && c.value.Some? && Ready(c.ops, t, s, x) && Extends(Branches(e, hint, c, t).ops, x.ops)
    requires Meaning(e, hint, s).Some? && Computes(c, x, Meaning(e.cond, Some(Bits(1)), s).value)
    ensures Computes(Branches(e, hint, c, t), x, Meaning(e, hint, s).value)
    decreases e, 0
  {
    var whole := Branches(e, hint, c, t).ops;
    var a, m := Lower(e.thenE, hint, c.ops, t), Meaning(e.thenE, hint, s).value;
    ThenAppends(e, hint, c, t);
    Within(e.thenE, hint, c.ops, t, s, x, whole);
    LowerComputes(e.thenE, hint, c.ops, t, s, x);
    var b := Lower(e.elseE, Some(m.ty), a.ops, t);
    Within(e.elseE, Some(m.ty), a.ops, t, s, x, whole);
    LowerComputes(e.elseE, Some(m.ty), a.ops, t, s, x);
    ComputesOp(b.ops, MuxOp(c.value.value, a.value.value, b.value.value, m.ty), x);
  }

  lemma {:induction false} ThenAppends(e: Expr, hint: Option<Type>, c: Lowered, t: Tables)
    requires e.Conditional? && c.value.Some? && InScope(t, |c.ops|)
    ensures Extends(Lower(e.thenE, hint, c.ops, t).ops, Branches(e, hint, c, t).ops)
  {
    LowerAppends(e.thenE, hint, c.ops, t);
    var a := Lower(e.thenE, hint, c.ops, t);
    if a.value.Some? {
      LowerAppends(e.elseE, Some(TypeAt(a.ops, a.value.value)), a.ops, t);
    }
  }

  /** `acc` is the join of the parts lowered so far. */
  lemma {:induction false} PartsCompute(parts: Exprs, ops: seq<Op>, t: Tables, s: Scope, x: Execution, args: seq<nat>, total: nat, acc: Val)
    requires Ready(ops, t, s, x) && Extends(LowerParts(parts, ops, t, args, total).ops, x.ops)
    requires Below(args, |ops|) && Joined(x.vals, args) == acc && acc.ty.Bits? && total == Low32(acc.ty.width)
    requires args != [] || parts.Cons?
    requires PartsMeaning(parts, s, acc).Some? && Width(PartsMeaning(parts, s, acc).value.ty) < TWO32
    ensures Computes(LowerParts(parts, ops, t, args, total), x, PartsMeaning(parts, s, acc).value)
    decreases parts
  {
    if parts.Nil? {
      LastComputes(ops, x, args, total, acc);
    } else {
      var whole := LowerParts(parts, ops, t, args, total).ops;
      var a, m := Lower(parts.first, None, ops, t), Meaning(parts.first, None, s).value;
      PartsAppendFirst(parts, ops, t, args, total);
      Within(parts.first, None, ops, t, s, x, whole);
      LowerComputes(parts.first, None, ops, t, s, x);
      var total' := JoinedMore(x.vals, args, acc, a.value.value, m, total);
      PartsSteps(parts, ops, t, s, args, total, acc, a, m, total');
      LowerAppends(parts.first, None, ops, t);
      PartsCompute(parts.more, a.ops, t, s, x, args + [a.value.value], total', Join(acc, m));
    }
  }

  lemma {:induction false} LastComputes(ops: seq<Op>, x: Execution, args: seq<nat>, total: nat, acc: Val)
    requires x.Valid() && Extends(ops + [ConcatOp(args, Bits(total))], x.ops)
    requires Joined(x.vals, args) == acc && acc.ty == Bits(total)
    ensures Computes(Push(ops, ConcatOp(args, Bits(total))), x, acc)
  {
    ComputesOp(ops, ConcatOp(args, Bits(total)), x);
  }

  /** The first part of a concatenation done, the rest is the whole. */
  lemma {:induction false} PartsSteps(parts: Exprs, ops: seq<Op>, t: Tables, s: Scope, args: seq<nat>, total: nat, acc: Val, a: Lowered, m: Val, total': nat)
    requires parts.Cons? && a == Lower(parts.first, None, ops, t) && Meaning(parts.first, None, s) == Some(m)
    requires a.value.Some? && m.ty.Bits? && TypeAt(a.ops, a.value.value) == m.ty && total' == Low32(total + Width(m.ty))
    ensures LowerParts(parts, ops, t, args, total) == LowerParts(parts.more, a.ops, t, args + [a.value.value], total')
    ensures PartsMeaning(parts, s, acc) == PartsMeaning(parts.more, s, Join(acc, m))
  {
    LowerPartsSteps(parts, ops, t, args, total, a);
    PartsMeaningSteps(parts, s, acc, m);
  }

  lemma {:induction false} PartsMeaningSteps(parts: Exprs, s: Scope, acc: Val, m: Val)
    requires parts.Cons? && Meaning(parts.first, None, s) == Some(m) && m.ty.Bits?
    ensures PartsMeaning(parts, s, acc) == PartsMeaning(parts.more, s, Join(acc, m))
  {
  }

  lemma {:induction false} JoinedMore(vals: seq<Val>, args: seq<nat>, acc: Val, v: nat, m: Val, total: nat) returns (total': nat)
    requires Joined(vals, args) == acc && At(vals, v) == m && total == Low32(Width(acc.ty))
    ensures Joined(vals, args + [v]) == Join(acc, m)
    ensures total' == Low32(total + Width(m.ty)) && total' == Low32(Width(Join(acc, m).ty))
  {
    assert (args + [v])[..|args|] == args;
    Low32Adds(Width(acc.ty), Width(m.ty));
    total' := Low32(total + Width(m.ty));
  }

  lemma {:induction false} PartsAppendFirst(parts: Exprs, ops: seq<Op>, t: Tables, args: seq<nat>, total: nat)
    requires parts.Cons? && InScope(t, |ops|) && Below(args, |ops|)
    ensures Extends(Lower(parts.first, None, ops, t).ops, LowerParts(parts, ops, t, args, total).ops)
  {
    LowerAppends(parts.first, None, ops, t);
    var a := Lower(parts.first, None, ops, t);
    if a.value.Some? && TypeAt(a.ops, a.value.value).Bits? {
      LowerPartsSteps(parts, ops, t, args, total, a);
      PartsAppend(parts.more, a.ops, t, args + [a.value.value], Low32(total + TypeAt(a.ops, a.value.value).width));
    }
  }

  // ----- Every block runs, in exactly one way -----

  function Run(ops: seq<Op>, signals: map<string, nat>): (vals: seq<Val>)
    ensures |vals| == |ops|
  {
    if ops == [] then [] else
    var before := Run(ops[..|ops| - 1], signals);
    before + [Step(ops[|ops| - 1], before, signals)]
  }

  lemma {:induction false} JoinedLocal(a: seq<Val>, b: seq<Val>, args: seq<nat>, n: nat)
    requires Below(args, n) && n <= |a| && n <= |b| && forall i :: 0 <= i < n ==> a[i] == b[i]
    ensures Joined(a, args) == Joined(b, args)
    decreases |args|
  {
    if args != [] {
      JoinedLocal(a, b, args[..|args| - 1], n);
    }
  }

  /** An op sees nothing but its operands. */
  lemma {:induction false} StepLocal(op: Op, a: seq<Val>, b: seq<Val>, signals: map<string, nat>, n: nat)
    requires Dominated(op, n) && n <= |a| && n <= |b| && forall i :: 0 <= i < n ==> a[i] == b[i]
    ensures Step(op, a, signals) == Step(op, b, signals)
  {
    if op.ConcatOp? {
      JoinedLocal(a, b, op.args, n);
    }
  }

  lemma {:induction false} RunIsExecution(ops: seq<Op>, signals: map<string, nat>)
    requires Ordered(ops, 0)
    ensures Execution(ops, signals, Run(ops, signals)).Valid()
    decreases |ops|
  {
    if ops != [] {
      var front := ops[..|ops| - 1];
      var before, vals := Run(front, signals), Run(ops, signals);
      RunIsExecution(front, signals);
      forall i | 0 <= i < |ops| ensures vals[i] == Step(ops[i], vals, signals) {
        if i < |front| {
          assert front[i] == ops[i];
        }
        StepLocal(ops[i], before, vals, signals, i);
      }
    }
  }

  /** Any execution of an ordered block is its run. */
  lemma {:induction false} ExecutionIsRun(x: Execution)
    requires Ordered(x.ops, 0) && x.Valid()
    ensures x.vals == Run(x.ops, x.signals)
  {
    var vals := Run(x.ops, x.signals);
    RunIsExecution(x.ops, x.signals);
    SameUpTo(x, Execution(x.ops, x.signals, vals), |x.ops|);
  }

  lemma {:induction false} SameUpTo(x: Execution, y: Execution, n: nat)
    requires Ordered(x.ops, 0) && x.Valid() && y.Valid() && x.ops == y.ops && x.signals == y.signals && n <= |x.ops|
    ensures forall i :: 0 <= i < n ==> x.vals[i] == y.vals[i]
  {
    if n > 0 {
      SameUpTo(x, y, n - 1);
      assert Dominated(x.ops[n - 1], n - 1);
      StepLocal(x.ops[n - 1], x.vals, y.vals, x.signals, n - 1);
    }
  }

  // ----- What has a meaning type-checks -----

  lemma {:induction false} MeaningIsTyped(e: Expr, hint: Option<Type>, s: Scope)
    requires Meaning(e, hint, s).Some?
    ensures TypeOf(e, hint, s) == Some(Meaning(e, hint, s).value.ty)
    decreases e
  {
    match e
    case Literal(lit) => LiteralResolves(lit, hint);
    case Name(_) =>
    case Binary(op, lhs, rhs) =>
      MeaningIsTyped(lhs, hint, s);
      MeaningIsTyped(rhs, Some(Meaning(lhs, hint, s).value.ty), s);
    case Unary(op, sub) => MeaningIsTyped(sub, hint, s);
    case Extend(_, to, sub) =>
      ResolvesAsSpelled(to);
      MeaningIsTyped(sub, Some(Bits(WidthArg(to))), s);
    case Conditional(cond, thenE, elseE) =>
      MeaningIsTyped(cond, Some(Bits(1)), s);
      MeaningIsTyped(thenE, hint, s);
      MeaningIsTyped(elseE, Some(Meaning(thenE, hint, s).value.ty), s);
    case Slice(sub, _, _) => SliceIsTyped(e, hint, s);
    case Concat(parts) => PartsAreTyped(parts, s, EMPTY);
    case Repeat(count, sub) => RepeatIsTyped(e, hint, s);
  }

  lemma {:induction false} SliceIsTyped(e: Expr, hint: Option<Type>, s: Scope)
    requires e.Slice? && Meaning(e, hint, s).Some?
    ensures TypeOf(e, hint, s) == Some(Meaning(e, hint, s).value.ty)
    decreases e, 0
  {
    var h, l := SliceResolves(e, s);
    SliceMeans(e, hint, s, h, l);
    MeaningIsTyped(e.sub, None, s);
  }

  lemma {:induction false} RepeatIsTyped(e: Expr, hint: Option<Type>, s: Scope)
    requires e.Repeat? && Meaning(e, hint, s).Some?
    ensures TypeOf(e, hint, s) == Some(Meaning(e, hint, s).value.ty)
    decreases e, 0
  {
    assert Some(CountArg(e.count, s.params)) == CountMeaning(e.count, s.params);
    MeaningIsTyped(e.sub, None, s);
  }

  lemma {:induction false} PartsAreTyped(parts: Exprs, s: Scope, acc: Val)
    requires acc.ty.Bits? && PartsMeaning(parts, s, acc).Some?
    ensures PartsMeaning(parts, s, acc).value.ty.Bits? && PartsWidth(parts, s).Some?
    ensures PartsMeaning(parts, s, acc).value.ty.width == acc.ty.width + PartsWidth(parts, s).value
    decreases parts
  {
    if parts.Cons? {
      MeaningIsTyped(parts.first, None, s);
      PartsAreTyped(parts.more, s, Join(acc, Meaning(parts.first, None, s).value));
    }
  }

  // ----- What type-checks has a meaning, if its numbers are written out and its widths fit -----

  /** An index is a plain decimal below 2^32 - 1. */
  predicate WrittenIndex(e: Expr) {
    Spelled(e).Some? && Spelled(e).value + 1 < TWO32
  }

  /**
   Every number is one the code takes at its face value: a literal's value is
   below 2^63 and its size from 1 to 2^32 - 1, a width is a plain decimal in that
   range, an index one below 2^32 - 1, a literal count one below 2^63; and no
   concatenation or repetition is 2^32 bits or wider.
   */
  predicate Written(e: Expr, hint: Option<Type>, s: Scope)
    decreases e
  {
    match e
    case Literal(lit) => WrittenLiteral(lit)
    case Name(_) => true
    case Binary(_, lhs, rhs) => Written(lhs, hint, s) && Written(rhs, TypeOf(lhs, hint, s), s)
    case Unary(_, sub) => Written(sub, hint, s)
    case Extend(_, to, sub) =>
      && Spelled(to).Some? && 1 <= Spelled(to).value < TWO32
      && Written(sub, Some(Bits(Spelled(to).value)), s)
    case Conditional(cond, thenE, elseE) =>
      Written(cond, Some(Bits(1)), s) && Written(thenE, hint, s) && Written(elseE, TypeOf(thenE, hint, s), s)
    case Slice(sub, hi, lo) => WrittenIndex(hi) && (lo.Some? ==> WrittenIndex(lo.value)) && Written(sub, None, s)
    case Concat(parts) =>
      AllWritten(parts, s) && (PartsWidth(parts, s).Some? ==> PartsWidth(parts, s).value < TWO32)
    case Repeat(count, sub) =>
      && (Spelled(count).Some? ==> Spelled(count).value < TWO63)
      && Written(sub, None, s)
      && (TypeOf(sub, None, s).Some? && TypeOf(sub, None, s).value.Bits? ==>
            Times(CountArg(count, s.params), TypeOf(sub, None, s).value.width) < TWO32)
    case Unlowered => true
  }

  predicate AllWritten(parts: Exprs, s: Scope)
    decreases parts
  {
    match parts
    case Nil => true
    case Cons(e, more) => Written(e, None, s) && AllWritten(more, s)
  }

  /**
   Main result: an expression has a meaning if and only if it type-checks, that
   is, lowers to ops the verifiers accept, and its numbers are written out.
   */
  lemma {:induction false} MeansIff(e: Expr, hint: Option<Type>, s: Scope)
    ensures Meaning(e, hint, s).Some? <==> TypeOf(e, hint, s).Some? && Written(e, hint, s)
    ensures Meaning(e, hint, s).Some? ==> TypeOf(e, hint, s) == Some(Meaning(e, hint, s).value.ty)
  {
    if Meaning(e, hint, s).Some? {
      MeaningIsTyped(e, hint, s);
      MeaningIsWritten(e, hint, s);
    } else if TypeOf(e, hint, s).Some? && Written(e, hint, s) {
      WrittenMeans(e, hint, s);
    }
  }

  lemma {:induction false} MeaningIsWritten(e: Expr, hint: Option<Type>, s: Scope)
    requires Meaning(e, hint, s).Some?
    ensures Written(e, hint, s)
    decreases e
  {
    match e
    case Binary(_, lhs, rhs) =>
      MeaningIsTyped(lhs, hint, s);
      MeaningIsWritten(lhs, hint, s);
      MeaningIsWritten(rhs, TypeOf(lhs, hint, s), s);
    case Unary(_, sub) => MeaningIsWritten(sub, hint, s);
    case Extend(_, to, sub) => MeaningIsWritten(sub, Some(Bits(Spelled(to).value)), s);
    case Conditional(cond, thenE, elseE) =>
      MeaningIsTyped(thenE, hint, s);
      MeaningIsWritten(cond, Some(Bits(1)), s);
      MeaningIsWritten(thenE, hint, s);
      MeaningIsWritten(elseE, TypeOf(thenE, hint, s), s);
    case Slice(sub, _, _) => MeaningIsWritten(sub, None, s);
    case Concat(parts) =>
      PartsAreTyped(parts, s, EMPTY);
      PartsAreWritten(parts, s, EMPTY);
    case Repeat(count, sub) =>
      MeaningIsTyped(sub, None, s);
      MeaningIsWritten(sub, None, s);
      CountResolves(count, s.params);
    case _ =>
  }

  lemma {:induction false} PartsAreWritten(parts: Exprs, s: Scope, acc: Val)
    requires PartsMeaning(parts, s, acc).Some?
    ensures AllWritten(parts, s)
    decreases parts
  {
    if parts.Cons? {
      MeaningIsWritten(parts.first, None, s);
      PartsAreWritten(parts.more, s, Join(acc, Meaning(parts.first, None, s).value));
    }
  }

  lemma {:induction false} CountResolves(count: Expr, params: map<string, int>)
    ensures CountMeaning(count, params).Some? ==> CountMeaning(count, params) == Some(CountArg(count, params))
    ensures CountArg(count, params) >= 1 && (Spelled(count).Some? ==> Spelled(count).value < TWO63) ==>
      CountMeaning(count, params).Some?
  {
  }

  lemma {:induction false} WrittenMeans(e: Expr, hint: Option<Type>, s: Scope)
    requires TypeOf(e, hint, s).Some? && Written(e, hint, s)
    ensures Meaning(e, hint, s).Some?
    decreases e
  {
    match e
    case Literal(lit) => LiteralResolves(lit, hint);
    case Binary(_, lhs, rhs) =>
      WrittenMeans(lhs, hint, s);
      MeaningIsTyped(lhs, hint, s);
      WrittenMeans(rhs, TypeOf(lhs, hint, s), s);
      MeaningIsTyped(rhs, TypeOf(lhs, hint, s), s);
    case Unary(_, sub) =>
      WrittenMeans(sub, hint, s);
      MeaningIsTyped(sub, hint, s);
    case Extend(_, to, sub) =>
      ResolvesAsSpelled(to);
      WrittenMeans(sub, Some(Bits(WidthArg(to))), s);
      MeaningIsTyped(sub, Some(Bits(WidthArg(to))), s);
    case Conditional(_, _, _) => ConditionalMeans(e, hint, s);
    case Slice(_, _, _) => SliceHasMeaning(e, hint, s);
    case Concat(parts) =>
      WrittenPartsMean(parts, s, EMPTY);
      PartsAreTyped(parts, s, EMPTY);
    case Repeat(count, sub) =>
      CountResolves(count, s.params);
      WrittenMeans(sub, None, s);
      MeaningIsTyped(sub, None, s);
    case _ =>
  }

  lemma {:induction false} ConditionalMeans(e: Expr, hint: Option<Type>, s: Scope)
    requires e.Conditional? && TypeOf(e, hint, s).Some? && Written(e, hint, s)
    ensures Meaning(e, hint, s).Some?
    decreases e, 0
  {
    WrittenMeans(e.cond, Some(Bits(1)), s);
    MeaningIsTyped(e.cond, Some(Bits(1)), s);
    WrittenMeans(e.thenE, hint, s);
    MeaningIsTyped(e.thenE, hint, s);
    WrittenMeans(e.elseE, TypeOf(e.thenE, hint, s), s);
    MeaningIsTyped(e.elseE, TypeOf(e.thenE, hint, s), s);
  }

  lemma {:induction false} SliceHasMeaning(e: Expr, hint: Option<Type>, s: Scope)
    requires e.Slice? && TypeOf(e, hint, s).Some? && Written(e, hint, s)
    ensures Meaning(e, hint, s).Some?
    decreases e, 0
  {
    ResolvesAsSpelled(e.hi);
    if e.lo.Some? {
      ResolvesAsSpelled(e.lo.value);
    }
    WrittenMeans(e.sub, None, s);
    MeaningIsTyped(e.sub, None, s);
  }

  lemma {:induction false} WrittenPartsMean(parts: Exprs, s: Scope, acc: Val)
    requires acc.ty.Bits? && PartsWidth(parts, s).Some? && AllWritten(parts, s)
    ensures PartsMeaning(parts, s, acc).Some?
    decreases parts
  {
    if parts.Cons? {
      WrittenMeans(parts.first, None, s);
      MeaningIsTyped(parts.first, None, s);
      WrittenPartsMean(parts.more, s, Join(acc, Meaning(parts.first, None, s).value));
    }
  }

  // ----- Every value fits its width -----

  predicate Fits(v: Val) {
    v.ty.Bits? ==> v.bits < Pow2(v.ty.width)
  }

  ghost predicate ScopeFits(s: Scope) {
    forall n :: n in s.values ==> Fits(s.values[n])
  }

  /** Main result: in a scope whose values fit their widths, so does every meaning. */
  lemma {:induction false} MeaningFits(e: Expr, hint: Option<Type>, s: Scope)
    requires ScopeFits(s) && Meaning(e, hint, s).Some?
    ensures Fits(Meaning(e, hint, s).value)
    decreases e
  {
    match e
    case Literal(_) =>
    case Name(_) =>
    case Binary(op, lhs, rhs) =>
      var x := Meaning(lhs, hint, s).value;
      var y := Meaning(rhs, Some(x.ty), s).value;
      MeaningFits(lhs, hint, s);
      MeaningFits(rhs, Some(x.ty), s);
      BinaryInRange(op, x.ty.width, x.bits, y.bits);
    case Unary(op, sub) =>
      MeaningFits(sub, hint, s);
      var x := Meaning(sub, hint, s).value;
      if !op.Plus? {
        UnaryInRange(op, x.ty.width, x.bits);
      }
    case Extend(signed, to, sub) => ExtendFits(e, hint, s);
    case Conditional(_, thenE, elseE) =>
      MeaningFits(thenE, hint, s);
      MeaningFits(elseE, Some(Meaning(thenE, hint, s).value.ty), s);
    case Slice(sub, hi, lo) =>
      var h, l := SliceResolves(e, s);
      SliceMeans(e, hint, s, h, l);
      LowBitsInRange(ShiftedDown(Meaning(sub, None, s).value.bits, l), h - l + 1);
    case Concat(parts) =>
      PartsFit(parts, s, EMPTY);
    case Repeat(count, sub) =>
      MeaningFits(sub, None, s);
      var x := Meaning(sub, None, s).value;
      RepeatedInRange(x.ty.width, x.bits, CountMeaning(count, s.params).value);
  }

  lemma {:induction false} ExtendFits(e: Expr, hint: Option<Type>, s: Scope)
    requires ScopeFits(s) && e.Extend? && Meaning(e, hint, s).Some?
    ensures Fits(Meaning(e, hint, s).value)
    decreases e, 0
  {
    var w := Spelled(e.to).value;
    MeaningFits(e.sub, Some(Bits(w)), s);
    var x := Meaning(e.sub, Some(Bits(w)), s).value;
    SignExtendedInRange(x.ty.width, w, x.bits);
    Pow2Grows(x.ty.width, w);
  }

  lemma {:induction false} PartsFit(parts: Exprs, s: Scope, acc: Val)
    requires ScopeFits(s) && acc.ty.Bits? && Fits(acc) && PartsMeaning(parts, s, acc).Some?
    ensures Fits(PartsMeaning(parts, s, acc).value)
    decreases parts
  {
    if parts.Cons? {
      var x := Meaning(parts.first, None, s).value;
      MeaningFits(parts.first, None, s);
      JoinFits(acc, x);
      PartsMeaningSteps(parts, s, acc, x);
      PartsFit(parts.more, s, Join(acc, x));
    }
  }

  lemma {:induction false} JoinFits(x: Val, y: Val)
    requires x.ty.Bits? && y.ty.Bits? && Fits(x) && Fits(y)
    ensures Fits(Join(x, y))
  {
    AboveInRange(x.bits, x.ty.width, y.bits, y.ty.width);
  }

  // ----- The whole result -----

  /**
   Main result: in a well-formed block whose signals give the names their
   values, an expression with a meaning lowers to appended ops that are all
   within their width rules and whose run ends in that meaning.
   */
  lemma {:induction false} LoweringCorrect(e: Expr, hint: Option<Type>, ops: seq<Op>, t: Tables, s: Scope, signals: map<string, nat>)
    requires Ordered(ops, 0) && Typed(s, t, ops)
    requires forall n :: n in t.names ==> At(Run(ops, signals), t.names[n]) == s.values[n]
    requires Meaning(e, hint, s).Some?
    ensures
      var r := Lower(e, hint, ops, t);
      && Appends(ops, r) && Accepted(ops, r)
      && At(Run(r.ops, signals), r.value.value) == Meaning(e, hint, s).value
  {
    var r := Lower(e, hint, ops, t);
    MeaningIsTyped(e, hint, s);
    LowersIffTyped(e, hint, ops, t, s);
    var x := Execution(r.ops, signals, Run(r.ops, signals));
    RunIsExecution(r.ops, signals);
    RunKeepsPrefix(ops, r.ops, signals);
    LowerComputes(e, hint, ops, t, s, x);
  }

  lemma {:induction false} RunKeepsPrefix(a: seq<Op>, b: seq<Op>, signals: map<string, nat>)
    requires Extends(a, b)
    ensures forall i :: 0 <= i < |a| ==> Run(b, signals)[i] == Run(a, signals)[i]
    decreases |b|
  {
    if |a| == |b| {
      assert a == b;
    } else {
      RunKeepsPrefix(a, b[..|b| - 1], signals);
    }
  }

  /**
   Type-checking is not enough for a meaning: the width of a slice is taken in
   32 bits, so bits 2^32 down to 0 of any signal are accepted as its lowest bit.
   */
  lemma {:induction false} SliceWidthWraps(n: string, s: Scope)
    requires n in s.values && n !in s.controls && s.values[n].ty.Bits? && s.values[n].ty.width >= 1
    ensures
      var e := Slice(Name([n]), Literal(Spelling(0x1_0000_0000, None, true)), Some(Literal(Spelling(0, None, true))));
      TypeOf(e, None, s) == Some(Bits(1)) && Meaning(e, None, s) == None
  {
    assert TypeOf(Name([n]), None, s) == Some(s.values[n].ty);
    assert Meaning(Name([n]), None, s) == Some(s.values[n]);
  }

  /** So is a concatenation of two signals of 2^31 bits, as no bits at all, its width being taken in 32 bits. */
  lemma {:induction false} ConcatWidthWraps(n: string, s: Scope)
    requires n in s.values && n !in s.controls && s.values[n].ty == Bits(0x8000_0000)
    ensures
      var e := Concat(Cons(Name([n]), Cons(Name([n]), Nil)));
      TypeOf(e, None, s) == Some(Bits(0)) && Meaning(e, None, s) == None
  {
    var one := Name([n]);
    var last := Cons(one, Nil);
    assert TypeOf(one, None, s) == Some(Bits(0x8000_0000));
    assert PartsWidth(Nil, s) == Some(0);
    assert PartsWidth(last, s) == Some(0x8000_0000);
    assert PartsWidth(Cons(one, last), s) == Some(0x1_0000_0000);
    MeansIff(Concat(Cons(one, last)), None, s);
  }

  /** And 2^62 copies of four bits, whose width is taken in 64 bits. */
  lemma {:induction false} RepeatWidthWraps(k: string, n: string, s: Scope)
    requires k in s.params && s.params[k] == 0x4000_0000_0000_0000
    requires n in s.values && n !in s.controls && s.values[n].ty == Bits(4)
    ensures
      var e := Repeat(Name([k]), Name([n]));
      TypeOf(e, None, s) == Some(Bits(0)) && Meaning(e, None, s) == None
  {
    var count, one := Name([k]), Name([n]);
    assert TypeOf(one, None, s) == Some(Bits(4));
    assert CountArg(count, s.params) == 0x4000_0000_0000_0000;
    TimesIsProduct(0x4000_0000_0000_0000, 4);
    MeansIff(Repeat(count, one), None, s);
  }

  // ----- Literals whose value or size does not fit the code's integers -----

  lemma {:induction false} OneDigitMore(s: string, c: char, base: nat, v: nat, d: nat)
    requires c != '_' && Digit(c) == Some(d) && d < base && AllReadable(s, base) && Positional(s, base) == v
    ensures AllReadable(s + [c], base) && Positional(s + [c], base) == v * base + d
  {
    PositionalAppends(s, c, base);
  }

  /** A one and `n` zeros. */
  function OneAndZeros(n: nat): (s: string)
    ensures forall i :: 0 <= i < |s| ==> IsDec(s[i])
    ensures s != ""
  {
    if n == 0 then "1" else OneAndZeros(n - 1) + ['0']
  }

  lemma {:induction false} PowerSpelled(base: nat, n: nat)
    requires base >= 2
    ensures AllReadable(OneAndZeros(n), base) && Positional(OneAndZeros(n), base) == Pow(base, n)
    decreases n
  {
    if n == 0 {
      OneDigitMore("", '1', base, 0, 1);
      assert "" + ['1'] == "1";
    } else {
      PowerSpelled(base, n - 1);
      OneDigitMore(OneAndZeros(n - 1), '0', base, Pow(base, n - 1), 0);
    }
  }

  lemma {:induction false} PowersNeeded()
    ensures Pow(16, 15) == 0x1000_0000_0000_0000 && Pow(10, 10) == 10_000_000_000
  {
    assert Pow(16, 3) == 0x1000;
    PowAdds(16, 3, 3);
    PowAdds(16, 6, 6);
    PowAdds(16, 12, 3);
    assert Pow(10, 5) == 100_000;
    PowAdds(10, 5, 5);
  }

  /** The digits of 2^64 + 1 in hexadecimal. */
  lemma {:induction false} WideDigits(n: nat)
    requires n == 15
    ensures AllReadable(OneAndZeros(n) + ['1'], 16)
    ensures Positional(OneAndZeros(n) + ['1'], 16) == 0x1_0000_0000_0000_0001
  {
    PowerSpelled(16, n);
    PowersNeeded();
    OneDigitMore(OneAndZeros(n), '1', 16, Pow(16, n), 1);
  }

  lemma {:induction false} SizedHex(run: string, v: nat)
    requires (forall i :: 0 <= i < |run| ==> IsDec(run[i])) && AllReadable(run, 16) && Positional(run, 16) == v
    ensures LitOf(Syntax.Hex, "8" + ['\'', 'h'] + run) == Spelling(v, Some(8), false)
  {
    OneDigitMore("", '8', 10, 0, 8);
    assert "" + ['8'] == "8";
    SizedLit("8", 'h', run);
  }

  /** A value is taken in 64 bits: `8'h` and the digits of 2^64 + 1 is accepted as the eight bits of 1. */
  lemma {:induction false} LiteralValueWraps(n: nat, hint: Option<Type>, s: Scope)
    requires n == 15
    ensures
      var e := Literal(LitOf(Syntax.Hex, "8" + ['\'', 'h'] + (OneAndZeros(n) + ['1'])));
      TypeOf(e, hint, s) == Some(Bits(8)) && NumeralOf(e.lit) == Numeral(1, 8, true) && Meaning(e, hint, s) == None
  {
    WideDigits(n);
    SizedHex(OneAndZeros(n) + ['1'], 0x1_0000_0000_0000_0001);
    AcceptedAsOne(Spelling(0x1_0000_0000_0000_0001, Some(8), false), hint, s);
  }

  lemma {:induction false} AcceptedAsOne(lit: Lit, hint: Option<Type>, s: Scope)
    requires lit == Spelling(0x1_0000_0000_0000_0001, Some(8), false)
    ensures TypeOf(Literal(lit), hint, s) == Some(Bits(8)) && NumeralOf(lit) == Numeral(1, 8, true)
    ensures Meaning(Literal(lit), hint, s) == None
  {
    var eight := 8;
    Pow2Grows(1, eight);
    assert Pow2(1) == 2;
  }

  lemma {:induction false} SizedOne(size: string, v: nat)
    requires size != "" && AllWidthChars(size) && AllReadable(size, 10) && Positional(size, 10) == v
    ensures LitOf(Syntax.Decimal, size + ['\'', 'd'] + "1") == Spelling(1, Some(v), false)
  {
    OneDigitMore("", '1', 10, 0, 1);
    assert "" + ['1'] == "1";
    SizedLit(size, 'd', "1");
  }

  /** A size is taken in 32 bits: 1 in 10^10 bits is accepted as 1 in 1410065408 bits. */
  lemma {:induction false} LiteralSizeWraps(n: nat, hint: Option<Type>, s: Scope)
    requires n == 10
    ensures
      var e := Literal(LitOf(Syntax.Decimal, OneAndZeros(n) + ['\'', 'd'] + "1"));
      TypeOf(e, hint, s) == Some(Bits(1_410_065_408)) && Meaning(e, hint, s) == None
  {
    PowerSpelled(10, n);
    PowersNeeded();
    SizedOne(OneAndZeros(n), 10_000_000_000);
    AcceptedNarrower(Spelling(1, Some(10_000_000_000), false), hint, s);
  }

  lemma {:induction false} AcceptedNarrower(lit: Lit, hint: Option<Type>, s: Scope)
    requires lit == Spelling(1, Some(10_000_000_000), false)
    ensures TypeOf(Literal(lit), hint, s) == Some(Bits(1_410_065_408)) && Meaning(Literal(lit), hint, s) == None
  {
  }

  /** An index that is not a plain decimal is taken as 0, whatever it says: bit `2'd1` of a signal is lowered as its bit 0. */
  lemma {:induction false} SizedIndexIsZero(n: string, face: nat, size: Option<nat>, ops: seq<Op>, t: Tables, s: Scope)
    requires Typed(s, t, ops) && n in s.values && n !in s.controls && s.values[n].ty.Bits? && s.values[n].ty.width >= 1
    ensures
      var e := Slice(Name([n]), Literal(Spelling(face, size, false)), Option.None);
      && TypeOf(e, None, s) == Some(Bits(1)) && Meaning(e, None, s) == None
      && Lower(e, None, ops, t) == Push(ops, ExtractOp(t.names[n], 0, Bits(1)))
  {
    var sub := Name([n]);
    assert TypeOf(sub, None, s) == Some(s.values[n].ty);
    assert Lower(sub, None, ops, t) == Lowered(ops, Some(t.names[n]));
  }
}
