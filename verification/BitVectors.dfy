/** What the dialect's expression ops compute (lib/Dialect/NSL/IR/NSLOps.td), on the unsigned readings of their operands. */
module BitVectors {
  import opened Powers
  import opened ExprSyntax

  predicate HasOp(op: BinaryOp) {
    !op.Div? && !op.Mod?
  }

  predicate IsLogical(op: BinaryOp) {
    op.LogicalAnd? || op.LogicalOr?
  }

  /** The ops whose result is as wide as their operands; the others answer with one bit. */
  predicate KeepsWidth(op: BinaryOp) {
    op in {Add, Sub, Mul, BitAnd, BitOr, BitXor, ShiftLeft, ShiftRight}
  }

  predicate UnaryKeepsWidth(op: UnaryOp) {
    op in {Neg, Plus, BitNot}
  }

  function OfBool(b: bool): nat {
    if b then 1 else 0
  }

  /** Applies a one-bit function to every bit. */
  function Bitwise(op: BinaryOp, w: nat, x: nat, y: nat): nat {
    if w == 0 then 0
    else 2 * Bitwise(op, w - 1, x / 2, y / 2) + OneBit(op, x % 2 == 1, y % 2 == 1)
  }

  function OneBit(op: BinaryOp, x: bool, y: bool): nat {
    match op
    case BitAnd => OfBool(x && y)
    case BitOr => OfBool(x || y)
    case _ => OfBool(x != y)
  }

  function Parity(w: nat, x: nat): nat {
    if w == 0 then 0 else (x + Parity(w - 1, x / 2)) % 2
  }

  function BinaryBits(op: BinaryOp, w: nat, x: nat, y: nat): nat {
    match op
    case Add => (x + y) % Pow2(w)
    case Sub => (x - y) % Pow2(w)
    case Mul => (x * y) % Pow2(w)
    case ShiftLeft => (x * Pow2(y)) % Pow2(w)
    case ShiftRight => x / Pow2(y)
    case BitAnd => Bitwise(op, w, x, y)
    case BitOr => Bitwise(op, w, x, y)
    case BitXor => Bitwise(op, w, x, y)
    case Equal => OfBool(x == y)
    case NotEqual => OfBool(x != y)
    case Less => OfBool(x < y)
    case LessEqual => OfBool(x <= y)
    case Greater => OfBool(x > y)
    case GreaterEqual => OfBool(x >= y)
    case LogicalAnd => OfBool(x != 0 && y != 0)
    case LogicalOr => OfBool(x != 0 || y != 0)
    case _ => 0
  }

  function UnaryBits(op: UnaryOp, w: nat, x: nat): nat {
    match op
    case Plus => x
    case Neg => (0 - x) % Pow2(w)
    case BitNot => (Pow2(w) - 1 - x) % Pow2(w)
    case LogicalNot => OfBool(x == 0)
    case ReduceAnd => OfBool(x == Pow2(w) - 1)
    case ReduceOr => OfBool(x != 0)
    case ReduceXor => Parity(w, x)
  }

  predicate Negative(w: nat, x: nat) {
    w > 0 && x >= Pow2(w - 1)
  }

  /** The two's-complement reading. */
  function Signed(w: nat, x: nat): int {
    if Negative(w, x) then x - Pow2(w) else x
  }

  /** Fills the bits from `from` up to `to` with the sign. */
  function SignExtended(from: nat, to: nat, x: nat): nat {
    if Negative(from, x) && from <= to then x + Fill(to, from) else x
  }

  function Fill(to: nat, from: nat): nat
    requires from <= to
  {
    Pow2Grows(from, to);
    Pow2(to) - Pow2(from)
  }

  function ShiftedUp(x: nat, n: nat): nat {
    if n == 0 then x else 2 * ShiftedUp(x, n - 1)
  }

  function ShiftedDown(x: nat, n: nat): nat {
    if n == 0 then x else ShiftedDown(x / 2, n - 1)
  }

  function LowBits(x: nat, w: nat): nat {
    if w == 0 then 0 else 2 * LowBits(x / 2, w - 1) + x % 2
  }

  function Extracted(x: nat, low: nat, w: nat): nat {
    LowBits(ShiftedDown(x, low), w)
  }

  /** `x` above the `w` bits of `y`. */
  function Above(x: nat, y: nat, w: nat): nat {
    ShiftedUp(x, w) + y
  }

  function Repeated(w: nat, x: nat, count: nat): nat {
    if count == 0 then 0 else Above(Repeated(w, x, count - 1), x, w)
  }

  lemma {:induction false} ShiftedUpIsProduct(x: nat, n: nat)
    ensures ShiftedUp(x, n) == x * Pow2(n)
  {
    if n > 0 {
      ShiftedUpIsProduct(x, n - 1);
      calc {
        2 * (x * Pow2(n - 1));
        x * (2 * Pow2(n - 1));
      }
    }
  }

  // ----- Every result is in range -----

  lemma {:induction false} BitwiseInRange(op: BinaryOp, w: nat, x: nat, y: nat)
    ensures Bitwise(op, w, x, y) < Pow2(w)
    decreases w
  {
    if w > 0 {
      BitwiseInRange(op, w - 1, x / 2, y / 2);
    }
  }

  lemma {:induction false} ParityIsBit(w: nat, x: nat)
    ensures Parity(w, x) < 2
  {
  }

  lemma QuotientShrinks(x: nat, p: nat)
    requires p > 0
    ensures x / p <= x
  {
    var q := x / p;
    assert x == q * p + x % p;
    Scale(q, 1, p);
  }

  lemma Scale(q: nat, a: nat, b: nat)
    requires a <= b
    ensures q * a <= q * b
  {
  }

  lemma {:induction false} BinaryInRange(op: BinaryOp, w: nat, x: nat, y: nat)
    requires HasOp(op) && x < Pow2(w) && y < Pow2(w)
    ensures BinaryBits(op, w, x, y) < Pow2(if KeepsWidth(op) then w else 1)
  {
    assert Pow2(1) == 2;
    BitwiseInRange(op, w, x, y);
    QuotientShrinks(x, Pow2(y));
  }

  lemma {:induction false} UnaryInRange(op: UnaryOp, w: nat, x: nat)
    requires x < Pow2(w)
    ensures UnaryBits(op, w, x) < Pow2(if UnaryKeepsWidth(op) then w else 1)
  {
    assert Pow2(1) == 2;
    ParityIsBit(w, x);
  }

  lemma {:induction false} SignExtendedInRange(from: nat, to: nat, x: nat)
    requires from <= to && x < Pow2(from)
    ensures SignExtended(from, to, x) < Pow2(to)
  {
    Pow2Grows(from, to);
  }

  /** Sign extension keeps the two's-complement value. */
  lemma {:induction false} SignExtensionKeepsValue(from: nat, to: nat, x: nat)
    requires from <= to && x < Pow2(from)
    ensures Signed(to, SignExtended(from, to, x)) == Signed(from, x)
  {
    Pow2Grows(from, to);
    if from < to {
      Pow2Grows(from, to - 1);
    }
  }

  lemma AboveInRange(x: nat, v: nat, y: nat, w: nat)
    requires x < Pow2(v) && y < Pow2(w)
    ensures Above(x, y, w) < Pow2(v + w)
  {
    ShiftedUpIsProduct(x, w);
    Pow2Adds(v, w);
    ScaleBelow(x, Pow2(v), Pow2(w));
  }

  lemma ScaleBelow(x: nat, a: nat, b: nat)
    requires x < a
    ensures x * b + b <= a * b
  {
    assert (x + 1) * b <= a * b;
  }

  lemma {:induction false} LowBitsInRange(x: nat, w: nat)
    ensures LowBits(x, w) < Pow2(w)
    ensures x < Pow2(w) ==> LowBits(x, w) == x
    decreases w
  {
    if w > 0 {
      LowBitsInRange(x / 2, w - 1);
    }
  }

  /** Joining puts the first operand above the second: extraction gets each back. */
  lemma {:induction false} AboveThenExtract(x: nat, v: nat, y: nat, w: nat)
    requires x < Pow2(v) && y < Pow2(w)
    ensures Extracted(Above(x, y, w), 0, w) == y
    ensures Extracted(Above(x, y, w), w, v) == x
    decreases w
  {
    if w == 0 {
      LowBitsInRange(x, v);
    } else {
      assert Above(x, y, w) / 2 == Above(x, y / 2, w - 1);
      AboveThenExtract(x, v, y / 2, w - 1);
    }
  }

  lemma {:induction false} RepeatedInRange(w: nat, x: nat, count: nat)
    requires x < Pow2(w)
    ensures Repeated(w, x, count) < Pow2(Times(count, w))
    decreases count
  {
    if count > 0 {
      RepeatedInRange(w, x, count - 1);
      AboveInRange(Repeated(w, x, count - 1), Times(count - 1, w), x, w);
    }
  }
}
