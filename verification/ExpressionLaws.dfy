/**
 Which operand is which: laws of the meaning of an expression, each said of the
 meanings of its parts.
 */
module ExpressionLaws {
  import opened Wrappers
  import opened Powers
  import opened BitVectors
  import opened BitLaws
  import opened Lowering
  import opened LoweringMeaning
  import Literals

  /** The meanings of both operands of a binary expression that has one. */
  ghost predicate Operands(e: Expr, hint: Option<Type>, s: Scope, v: Val, x: Val, y: Val) {
    && e.Binary? && ScopeFits(s)
    && Meaning(e, hint, s) == Some(v)
    && Meaning(e.lhs, hint, s) == Some(x)
    && Meaning(e.rhs, Some(x.ty), s) == Some(y)
  }

  lemma OperandsFit(e: Expr, hint: Option<Type>, s: Scope, v: Val, x: Val, y: Val)
    requires Operands(e, hint, s, v, x, y)
    ensures x.ty.Bits? && y.ty == x.ty && x.bits < Pow2(x.ty.width) && y.bits < Pow2(x.ty.width)
    ensures v.bits == BinaryBits(e.op, x.ty.width, x.bits, y.bits)
    ensures v.ty == ResultType(e.op, x.ty)
  {
    MeaningFits(e.lhs, hint, s);
    MeaningFits(e.rhs, Some(x.ty), s);
  }

  /** The arithmetic ops, at the operands' width. */
  lemma ArithmeticMeans(e: Expr, hint: Option<Type>, s: Scope, v: Val, x: Val, y: Val)
    requires Operands(e, hint, s, v, x, y)
    ensures e.op.Add? ==> v.ty == x.ty && (v.bits == x.bits + y.bits || v.bits + Pow2(x.ty.width) == x.bits + y.bits)
    ensures e.op.Sub? ==> v.ty == x.ty && (v.bits + y.bits) % Pow2(x.ty.width) == x.bits
  {
    OperandsFit(e, hint, s, v, x, y);
    ArithmeticLaws(x.ty.width, x.bits, y.bits);
  }

  /** The first operand is shifted, by as many places as the second says. */
  lemma ShiftMeans(e: Expr, hint: Option<Type>, s: Scope, v: Val, x: Val, y: Val, i: nat)
    requires Operands(e, hint, s, v, x, y) && i < Width(x.ty)
    ensures e.op.ShiftLeft? ==> v.ty == x.ty && Bit(v.bits, i) == if i < y.bits then 0 else Bit(x.bits, i - y.bits)
    ensures e.op.ShiftRight? ==>
      v.ty == x.ty && Bit(v.bits, i) == if i + y.bits < Width(x.ty) then Bit(x.bits, i + y.bits) else 0
  {
    OperandsFit(e, hint, s, v, x, y);
    ShiftLaws(x.ty.width, x.bits, y.bits, i);
  }

  /** Comparisons answer with one bit, in the order the operands are written. */
  lemma ComparisonMeans(e: Expr, hint: Option<Type>, s: Scope, v: Val, x: Val, y: Val)
    requires Operands(e, hint, s, v, x, y)
    ensures e.op.Less? ==> v.ty == Bits(1) && (v.bits == 1 <==> exists i :: DiffersBelow(Width(x.ty), x.bits, y.bits, i))
    ensures e.op.LessEqual? ==> v.ty == Bits(1) && (v.bits == 1 <==> !exists i :: DiffersBelow(Width(x.ty), y.bits, x.bits, i))
    ensures e.op.Greater? ==> v.ty == Bits(1) && (v.bits == 1 <==> exists i :: DiffersBelow(Width(x.ty), y.bits, x.bits, i))
    ensures e.op.GreaterEqual? ==> v.ty == Bits(1) && (v.bits == 1 <==> !exists i :: DiffersBelow(Width(x.ty), x.bits, y.bits, i))
  {
    OperandsFit(e, hint, s, v, x, y);
    LessIsHighestBit(x.ty.width, x.bits, y.bits);
    LessIsHighestBit(x.ty.width, y.bits, x.bits);
  }

  /** A conditional means its first branch exactly when the condition's bit is set. */
  lemma ConditionalMeans(e: Expr, hint: Option<Type>, s: Scope)
    requires e.Conditional? && ScopeFits(s) && Meaning(e, hint, s).Some?
    ensures Meaning(e.cond, Some(Bits(1)), s).Some? && Meaning(e.thenE, hint, s).Some?
    ensures
      var c := Meaning(e.cond, Some(Bits(1)), s).value.bits;
      var x := Meaning(e.thenE, hint, s);
      && (c == 1 ==> Meaning(e, hint, s) == x)
      && (c != 1 ==> c == 0 && Meaning(e, hint, s) == Meaning(e.elseE, Some(x.value.ty), s))
  {
    var one := 1;
    MeaningFits(e.cond, Some(Bits(one)), s);
    assert Pow2(one) == 2;
  }

  /** Extension keeps the bits there are, and adds copies of the top bit or zeros. */
  lemma ExtensionMeans(signed: bool, x: Val, to: nat, i: nat)
    requires x.ty.Bits? && Fits(x) && x.ty.width <= to && i < to
    ensures Bit(Extended(signed, x, to), i) ==
      if i < x.ty.width then Bit(x.bits, i)
      else if signed && x.ty.width > 0 then Bit(x.bits, x.ty.width - 1)
      else 0
  {
    if signed {
      SignExtendedBit(x.ty.width, to, x.bits, i);
    } else if x.ty.width <= i {
      BitsAbove(x.ty.width, x.bits, i);
    }
  }

  // ----- Literals without a size -----

  /** A literal that leaves its width to its surroundings. */
  predicate Unsized(lit: Literals.Lit) {
    lit.Spelling? && lit.size.None? && lit.face < TWO63
  }

  /** A literal to the right of an operator takes the width of the left operand, if its value fits there. */
  lemma {:induction false} LiteralTakesLeftWidth(e: Expr, hint: Option<Type>, s: Scope, w: nat)
    requires e.Binary? && e.rhs.Literal? && Unsized(e.rhs.lit) && HasOp(e.op) && (IsLogical(e.op) ==> w == 1)
    requires Meaning(e.lhs, hint, s).Some? && Meaning(e.lhs, hint, s).value.ty == Bits(w)
    ensures Meaning(e, hint, s).Some? <==> e.rhs.lit.face < Pow2(w)
    ensures Meaning(e, hint, s).Some? ==>
      Meaning(e, hint, s).value.bits == BinaryBits(e.op, w, Meaning(e.lhs, hint, s).value.bits, e.rhs.lit.face)
  {
  }

  /** A literal as the second branch takes the width of the first. */
  lemma {:induction false} LiteralTakesBranchWidth(e: Expr, hint: Option<Type>, s: Scope, w: nat)
    requires e.Conditional? && e.elseE.Literal? && Unsized(e.elseE.lit)
    requires Meaning(e.cond, Some(Bits(1)), s).Some? && Meaning(e.cond, Some(Bits(1)), s).value.ty == Bits(1)
    requires Meaning(e.thenE, hint, s).Some? && Meaning(e.thenE, hint, s).value.ty == Bits(w)
    ensures Meaning(e, hint, s).Some? <==> e.elseE.lit.face < Pow2(w)
    ensures Meaning(e, hint, s).Some? ==> Meaning(e, hint, s).value.ty == Bits(w)
  {
  }

  /** A literal on its own, or as a part of a concatenation, takes the fewest bits that hold its value. */
  lemma {:induction false} LoneLiteralIsNarrow(lit: Literals.Lit, s: Scope)
    requires Unsized(lit)
    ensures
      var m := Meaning(Literal(lit), None, s);
      && m.Some? && m.value.ty.Bits? && m.value.bits == lit.face < Pow2(m.value.ty.width)
      && forall w :: 1 <= w < m.value.ty.width ==> Pow2(w) <= lit.face
  {
    var n := Literals.BitLength(lit.face);
    if lit.face == 0 {
      assert Pow2(n) > 0;
    }
    forall w | 1 <= w < n ensures Pow2(w) <= lit.face {
      Pow2Grows(w, n - 1);
    }
  }

  // ----- Concatenation -----

  ghost predicate AllFit(vals: seq<Val>, args: seq<nat>) {
    forall k :: 0 <= k < |args| ==> At(vals, args[k]).ty.Bits? && Fits(At(vals, args[k]))
  }

  /** The width of the operands from `k` on. */
  function WidthFrom(vals: seq<Val>, args: seq<nat>, k: nat): nat
    decreases |args| - k
  {
    if k >= |args| then 0 else Width(At(vals, args[k]).ty) + WidthFrom(vals, args, k + 1)
  }

  lemma {:induction false} WidthFromSnoc(vals: seq<Val>, args: seq<nat>, v: nat, k: nat)
    requires k <= |args|
    ensures WidthFrom(vals, args + [v], k) == WidthFrom(vals, args, k) + Width(At(vals, v).ty)
    decreases |args| - k
  {
    if k < |args| {
      WidthFromSnoc(vals, args, v, k + 1);
    }
  }

  lemma {:induction false} JoinedFits(vals: seq<Val>, args: seq<nat>)
    requires AllFit(vals, args)
    ensures Joined(vals, args).ty == Bits(WidthFrom(vals, args, 0)) && Fits(Joined(vals, args))
  {
    if args != [] {
      var front, v := args[..|args| - 1], args[|args| - 1];
      JoinedFits(vals, front);
      assert args == front + [v];
      WidthFromSnoc(vals, front, v, 0);
      JoinFits(Joined(vals, front), At(vals, v));
    }
  }

  lemma {:induction false} UpperPart(x: nat, y: nat, w: nat, low: nat, v: nat)
    requires y < Pow2(w)
    ensures Extracted(Above(x, y, w), low + w, v) == Extracted(x, low, v)
  {
    AboveShiftsDown(x, y, w);
    ShiftedDownAdds(Above(x, y, w), w, low);
  }

  /** Every operand of a concatenation lies above the ones written after it. */
  lemma {:induction false} ConcatenationMeans(vals: seq<Val>, args: seq<nat>, k: nat)
    requires AllFit(vals, args) && k < |args|
    ensures Extracted(Joined(vals, args).bits, WidthFrom(vals, args, k + 1), Width(At(vals, args[k]).ty)) == At(vals, args[k]).bits
    decreases |args|
  {
    var front, v := args[..|args| - 1], args[|args| - 1];
    var upper, part := Joined(vals, front), At(vals, v);
    assert args == front + [v];
    JoinedFits(vals, front);
    if k == |args| - 1 {
      AboveThenExtract(upper.bits, upper.ty.width, part.bits, part.ty.width);
    } else {
      ConcatenationMeans(vals, front, k);
      WidthFromSnoc(vals, front, v, k + 1);
      UpperPart(upper.bits, part.bits, part.ty.width, WidthFrom(vals, front, k + 1), Width(At(vals, args[k]).ty));
    }
  }
}
