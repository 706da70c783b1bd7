/**
 What the ops of `BitVectors` are, bit by bit and as numbers, said without the
 expressions that compute them.
 */
module BitLaws {
  import opened Powers
  import opened ExprSyntax
  import opened BitVectors

  /** Bit `i`, counted from the least significant. */
  function Bit(x: nat, i: nat): nat {
    Extracted(x, i, 1)
  }

  /** The number with the given bits below `n`. */
  function Sum(x: nat, n: nat): nat {
    if n == 0 then 0 else Sum(x, n - 1) + Bit(x, n - 1) * Pow2(n - 1)
  }

  /** How many of the bits below `n` are one. */
  function Ones(x: nat, n: nat): nat {
    if n == 0 then 0 else Ones(x, n - 1) + Bit(x, n - 1)
  }

  // ----- Bits of a number -----

  lemma BitStep(x: nat, i: nat)
    ensures Bit(x, 0) == x % 2 && Bit(x, i + 1) == Bit(x / 2, i)
  {
    var one := 1;
    assert LowBits(x, one) == 2 * LowBits(x / 2, 0) + x % 2;
  }

  lemma {:induction false} BitIsBit(x: nat, i: nat)
    ensures Bit(x, i) == 0 || Bit(x, i) == 1
    decreases i
  {
    BitStep(x, i);
    if i > 0 {
      BitIsBit(x / 2, i - 1);
    }
  }

  lemma {:induction false} BitsOfZero(i: nat)
    ensures Bit(0, i) == 0
  {
    if i > 0 {
      BitsOfZero(i - 1);
    }
  }

  /** Beyond the width every bit is zero. */
  lemma {:induction false} BitsAbove(w: nat, x: nat, i: nat)
    requires x < Pow2(w) && w <= i
    ensures Bit(x, i) == 0
    decreases w
  {
    if w == 0 {
      BitsOfZero(i);
    } else {
      BitsAbove(w - 1, x / 2, i - 1);
    }
  }

  /** The bits below the width determine the number. */
  lemma {:induction false} BitsDetermine(w: nat, x: nat, y: nat)
    requires x < Pow2(w) && y < Pow2(w)
    requires forall i :: 0 <= i < w ==> Bit(x, i) == Bit(y, i)
    ensures x == y
    decreases w
  {
    if w > 0 {
      assert Bit(x, 0) == Bit(y, 0);
      forall i | 0 <= i < w - 1 ensures Bit(x / 2, i) == Bit(y / 2, i) {
        assert Bit(x, i + 1) == Bit(y, i + 1);
        BitStep(x, i);
        BitStep(y, i);
      }
      BitsDetermine(w - 1, x / 2, y / 2);
    }
  }

  lemma {:induction false} SumFromLowest(x: nat, n: nat)
    requires n > 0
    ensures Sum(x, n) == x % 2 + 2 * Sum(x / 2, n - 1)
  {
    BitStep(x, 0);
    if n > 1 {
      SumFromLowest(x, n - 1);
      BitStep(x, n - 2);
      DoublesPower(Bit(x / 2, n - 2), n - 1);
    }
  }

  lemma DoublesPower(b: nat, n: nat)
    requires n > 0
    ensures b * Pow2(n) == 2 * (b * Pow2(n - 1))
  {
    Regroup(b, 2, Pow2(n - 1));
  }

  /** A number is the sum of its bits, each at its power of two. */
  lemma {:induction false} NumberIsSum(w: nat, x: nat)
    requires x < Pow2(w)
    ensures Sum(x, w) == x
    decreases w
  {
    if w > 0 {
      SumFromLowest(x, w);
      NumberIsSum(w - 1, x / 2);
    }
  }

  // ----- Remainders and quotients by powers of two -----

  lemma Multiple(d: int, m: nat)
    ensures d >= 1 ==> d * m >= m
    ensures d <= -1 ==> d * m + m <= 0
  {
  }

  lemma DivisionIsUnique(z: int, m: nat, q: int, r: int)
    requires m > 0 && z == q * m + r && 0 <= r < m
    ensures z / m == q && z % m == r
  {
    var d := z / m - q;
    assert d * m == r - z % m;
    Multiple(d, m);
  }

  lemma {:induction false} LowBitsIsRemainder(x: nat, w: nat)
    ensures LowBits(x, w) == x % Pow2(w)
    decreases w
  {
    if w > 0 {
      LowBitsIsRemainder(x / 2, w - 1);
      HalfThenWhole(x, Pow2(w - 1));
    }
  }

  lemma HalfThenWhole(x: nat, p: nat)
    requires p > 0
    ensures x % (2 * p) == 2 * ((x / 2) % p) + x % 2
    ensures x / (2 * p) == (x / 2) / p
  {
    var q, r := (x / 2) / p, (x / 2) % p;
    assert x / 2 == q * p + r;
    Regroup(q, 2, p);
    Regroup(2, q, p);
    assert x == q * (2 * p) + (2 * r + x % 2);
    DivisionIsUnique(x, 2 * p, q, 2 * r + x % 2);
  }

  lemma {:induction false} ShiftedDownIsQuotient(x: nat, n: nat)
    ensures ShiftedDown(x, n) == x / Pow2(n)
    decreases n
  {
    if n > 0 {
      ShiftedDownIsQuotient(x / 2, n - 1);
      HalfThenWhole(x, Pow2(n - 1));
    }
  }

  lemma {:induction false} LowBitsKeeps(x: nat, w: nat, i: nat)
    requires i < w
    ensures Bit(LowBits(x, w), i) == Bit(x, i)
    decreases w
  {
    BitStep(x, 0);
    BitStep(LowBits(x, w), 0);
    if i > 0 {
      LowBitsKeeps(x / 2, w - 1, i - 1);
      BitStep(x, i - 1);
      BitStep(LowBits(x, w), i - 1);
    }
  }

  // ----- Shifts -----

  lemma {:induction false} ShiftedUpBit(x: nat, n: nat, i: nat)
    ensures Bit(ShiftedUp(x, n), i) == if i < n then 0 else Bit(x, i - n)
    decreases n
  {
    if n > 0 {
      BitStep(ShiftedUp(x, n), 0);
      if i > 0 {
        BitStep(ShiftedUp(x, n), i - 1);
        ShiftedUpBit(x, n - 1, i - 1);
      }
    }
  }

  lemma {:induction false} ShiftedDownAdds(x: nat, m: nat, n: nat)
    ensures ShiftedDown(ShiftedDown(x, m), n) == ShiftedDown(x, m + n)
    decreases m
  {
    if m > 0 {
      ShiftedDownAdds(x / 2, m - 1, n);
    }
  }

  /** A left shift moves bits up and fills with zeros; a right shift moves them down. */
  lemma {:induction false} ShiftLaws(w: nat, x: nat, y: nat, i: nat)
    requires x < Pow2(w) && i < w
    ensures Bit(BinaryBits(ShiftLeft, w, x, y), i) == if i < y then 0 else Bit(x, i - y)
    ensures Bit(BinaryBits(ShiftRight, w, x, y), i) == if i + y < w then Bit(x, i + y) else 0
  {
    ShiftedUpIsProduct(x, y);
    LowBitsIsRemainder(ShiftedUp(x, y), w);
    LowBitsKeeps(ShiftedUp(x, y), w, i);
    ShiftedUpBit(x, y, i);
    ShiftedDownIsQuotient(x, y);
    ShiftedDownAdds(x, y, i);
    if w <= i + y {
      BitsAbove(w, x, i + y);
    }
  }

  // ----- Bitwise ops -----

  lemma Halved(z: nat, h: nat, b: nat)
    requires z == 2 * h + b && b < 2
    ensures z / 2 == h && z % 2 == b
  {
  }

  lemma {:induction false} BitwiseBit(op: BinaryOp, w: nat, x: nat, y: nat, i: nat)
    requires i < w
    ensures Bit(Bitwise(op, w, x, y), i) == OneBit(op, Bit(x, i) == 1, Bit(y, i) == 1)
    decreases w
  {
    var z := Bitwise(op, w, x, y);
    Halved(z, Bitwise(op, w - 1, x / 2, y / 2), OneBit(op, x % 2 == 1, y % 2 == 1));
    if i == 0 {
      BitStep(x, 0);
      BitStep(y, 0);
      BitStep(z, 0);
    } else {
      BitwiseBit(op, w - 1, x / 2, y / 2, i - 1);
      BitStep(x, i - 1);
      BitStep(y, i - 1);
      BitStep(z, i - 1);
    }
  }

  /** Bit by bit: both, either, exactly one. */
  lemma {:induction false} BitwiseLaws(w: nat, x: nat, y: nat, i: nat)
    requires i < w
    ensures Bit(BinaryBits(BitAnd, w, x, y), i) == Bit(x, i) * Bit(y, i)
    ensures Bit(BinaryBits(BitOr, w, x, y), i) == Bit(x, i) + Bit(y, i) - Bit(x, i) * Bit(y, i)
    ensures Bit(BinaryBits(BitXor, w, x, y), i) == (Bit(x, i) + Bit(y, i)) % 2
  {
    BitwiseBit(BitAnd, w, x, y, i);
    BitwiseBit(BitOr, w, x, y, i);
    BitwiseBit(BitXor, w, x, y, i);
    BitIsBit(x, i);
    BitIsBit(y, i);
  }

  // ----- Arithmetic -----

  lemma RemainderAdds(x: nat, y: nat, m: nat)
    requires m > 0
    ensures (x % m + y) % m == (x + y) % m
  {
    var q, s := x / m, (x % m + y) / m;
    assert x + y == (q + s) * m + (x % m + y) % m;
    DivisionIsUnique(x + y, m, q + s, (x % m + y) % m);
  }

  lemma SumWraps(x: nat, y: nat, m: nat)
    requires x < m && y < m
    ensures (x + y) % m == if x + y < m then x + y else x + y - m
  {
    if x + y < m {
      DivisionIsUnique(x + y, m, 0, x + y);
    } else {
      DivisionIsUnique(x + y, m, 1, x + y - m);
    }
  }

  lemma DifferenceCancels(x: nat, y: nat, m: nat)
    requires x < m && y < m
    ensures ((x - y) % m + y) % m == x
  {
    var q := (x - y) / m;
    assert (x - y) % m + y == (-q) * m + x;
    DivisionIsUnique((x - y) % m + y, m, -q, x);
  }

  /**
   A sum is the sum of the numbers or 2^w less; a difference is what added to
   the second operand gives the first; a product is a repeated sum.
   */
  lemma {:induction false} ArithmeticLaws(w: nat, x: nat, y: nat)
    requires x < Pow2(w) && y < Pow2(w)
    ensures BinaryBits(Add, w, x, y) == if x + y < Pow2(w) then x + y else x + y - Pow2(w)
    ensures (BinaryBits(Sub, w, x, y) + y) % Pow2(w) == x
    ensures BinaryBits(Mul, w, x, 0) == 0
    ensures BinaryBits(Mul, w, x, y + 1) == BinaryBits(Add, w, BinaryBits(Mul, w, x, y), x)
  {
    SumWraps(x, y, Pow2(w));
    DifferenceCancels(x, y, Pow2(w));
    DivisionIsUnique(0, Pow2(w), 0, 0);
    assert x * 0 == 0 && x * (y + 1) == x * y + x;
    RemainderAdds(x * y, x, Pow2(w));
  }

  // ----- Comparisons -----

  /** At bit `i`, the highest where they differ, `x` has zero and `y` one. */
  ghost predicate DiffersBelow(w: nat, x: nat, y: nat, i: int) {
    0 <= i < w && Bit(x, i) == 0 && Bit(y, i) == 1 && forall j :: i < j < w ==> Bit(x, j) == Bit(y, j)
  }

  lemma DiffersHigher(w: nat, x: nat, y: nat, i: nat)
    requires w > 0
    ensures DiffersBelow(w - 1, x / 2, y / 2, i) <==> DiffersBelow(w, x, y, i + 1)
  {
    BitStep(x, i);
    BitStep(y, i);
    if DiffersBelow(w - 1, x / 2, y / 2, i) {
      forall j | i + 1 < j < w ensures Bit(x, j) == Bit(y, j) {
        BitStep(x, j - 1);
        BitStep(y, j - 1);
      }
    }
    if DiffersBelow(w, x, y, i + 1) {
      forall j | i < j < w - 1 ensures Bit(x / 2, j) == Bit(y / 2, j) {
        assert Bit(x, j + 1) == Bit(y, j + 1);
        BitStep(x, j);
        BitStep(y, j);
      }
    }
  }

  lemma HalvesAgree(w: nat, x: nat, y: nat)
    requires w > 0 && x < Pow2(w) && y < Pow2(w)
    ensures x / 2 == y / 2 <==> forall j :: 0 < j < w ==> Bit(x, j) == Bit(y, j)
  {
    forall j | 0 < j < w ensures Bit(x, j) == Bit(x / 2, j - 1) && Bit(y, j) == Bit(y / 2, j - 1) {
      BitStep(x, j - 1);
      BitStep(y, j - 1);
    }
    if forall j :: 0 < j < w ==> Bit(x, j) == Bit(y, j) {
      forall i | 0 <= i < w - 1 ensures Bit(x / 2, i) == Bit(y / 2, i) {
        assert Bit(x, i + 1) == Bit(y, i + 1);
      }
      BitsDetermine(w - 1, x / 2, y / 2);
    }
  }

  /** The order of numbers is the order of their highest differing bit. */
  lemma {:induction false} LessIsHighestBit(w: nat, x: nat, y: nat)
    requires x < Pow2(w) && y < Pow2(w)
    ensures x < y <==> exists i :: DiffersBelow(w, x, y, i)
    decreases w
  {
    if w > 0 {
      LessIsHighestBit(w - 1, x / 2, y / 2);
      HalvesAgree(w, x, y);
      if x / 2 < y / 2 {
        var i :| DiffersBelow(w - 1, x / 2, y / 2, i);
        DiffersHigher(w, x, y, i);
      } else if x < y {
        BitStep(x, 0);
        BitStep(y, 0);
        assert DiffersBelow(w, x, y, 0);
      }
      if i :| DiffersBelow(w, x, y, i) {
        if i > 0 {
          DiffersHigher(w, x, y, i - 1);
        }
      }
    }
  }

  /** Every comparison is one bit: less by the highest differing bit, equal by all bits, and the rest by these. */
  lemma {:induction false} ComparisonLaws(w: nat, x: nat, y: nat)
    requires x < Pow2(w) && y < Pow2(w)
    ensures BinaryBits(Less, w, x, y) == 1 <==> exists i :: DiffersBelow(w, x, y, i)
    ensures BinaryBits(Equal, w, x, y) == 1 <==> forall i :: 0 <= i < w ==> Bit(x, i) == Bit(y, i)
    ensures BinaryBits(LessEqual, w, x, y) == 1 <==> x <= y
    ensures BinaryBits(Greater, w, x, y) == BinaryBits(Less, w, y, x) == 1 - BinaryBits(LessEqual, w, x, y)
    ensures BinaryBits(GreaterEqual, w, x, y) == BinaryBits(LessEqual, w, y, x) == 1 - BinaryBits(Less, w, x, y)
    ensures BinaryBits(NotEqual, w, x, y) == 1 - BinaryBits(Equal, w, x, y)
  {
    LessIsHighestBit(w, x, y);
    if forall i :: 0 <= i < w ==> Bit(x, i) == Bit(y, i) {
      BitsDetermine(w, x, y);
    }
  }

  // ----- Truth and reductions -----

  ghost predicate AnyBit(w: nat, x: nat) {
    exists i :: 0 <= i < w && Bit(x, i) == 1
  }

  ghost predicate AllBits(w: nat, x: nat) {
    forall i :: 0 <= i < w ==> Bit(x, i) == 1
  }

  lemma {:induction false} NonzeroIffAnyBit(w: nat, x: nat)
    requires x < Pow2(w)
    ensures x != 0 <==> AnyBit(w, x)
  {
    forall i | 0 <= i < w ensures Bit(0, i) == 0 && (Bit(x, i) == 0 || Bit(x, i) == 1) {
      BitsOfZero(i);
      BitIsBit(x, i);
    }
    if !AnyBit(w, x) {
      BitsDetermine(w, x, 0);
    }
  }

  lemma {:induction false} ComplementBit(w: nat, x: nat, i: nat)
    requires x < Pow2(w) && i < w
    ensures Bit(Pow2(w) - 1 - x, i) == 1 - Bit(x, i)
    decreases w
  {
    var z := Pow2(w) - 1 - x;
    assert z / 2 == Pow2(w - 1) - 1 - x / 2 && z % 2 == 1 - x % 2;
    BitStep(x, 0);
    BitStep(z, 0);
    if i > 0 {
      ComplementBit(w - 1, x / 2, i - 1);
      BitStep(x, i - 1);
      BitStep(z, i - 1);
    }
  }

  lemma {:induction false} FullIffAllBits(w: nat, x: nat)
    requires x < Pow2(w)
    ensures x == Pow2(w) - 1 <==> AllBits(w, x)
  {
    var full := Pow2(w) - 1;
    forall i | 0 <= i < w ensures Bit(full, i) == 1 {
      ComplementBit(w, 0, i);
      BitsOfZero(i);
    }
    if AllBits(w, x) {
      BitsDetermine(w, x, full);
    }
  }

  lemma {:induction false} OnesFromLowest(x: nat, n: nat)
    requires n > 0
    ensures Ones(x, n) == x % 2 + Ones(x / 2, n - 1)
  {
    BitStep(x, 0);
    if n > 1 {
      OnesFromLowest(x, n - 1);
      BitStep(x, n - 2);
    }
  }

  lemma OddSum(x: nat, p: nat, n: nat)
    requires p == n % 2
    ensures (x + p) % 2 == (x % 2 + n) % 2
  {
  }

  lemma {:induction false} ParityIsOdd(w: nat, x: nat)
    ensures Parity(w, x) == Ones(x, w) % 2
    decreases w
  {
    if w > 0 {
      ParityIsOdd(w - 1, x / 2);
      OnesFromLowest(x, w);
      OddSum(x, Parity(w - 1, x / 2), Ones(x / 2, w - 1));
    }
  }

  /** The logical ops ask whether an operand has a bit set. */
  lemma {:induction false} LogicalLaws(w: nat, x: nat, y: nat)
    requires x < Pow2(w) && y < Pow2(w)
    ensures BinaryBits(LogicalAnd, w, x, y) == 1 <==> AnyBit(w, x) && AnyBit(w, y)
    ensures BinaryBits(LogicalOr, w, x, y) == 1 <==> AnyBit(w, x) || AnyBit(w, y)
    ensures UnaryBits(LogicalNot, w, x) == 1 <==> !AnyBit(w, x)
  {
    NonzeroIffAnyBit(w, x);
    NonzeroIffAnyBit(w, y);
  }

  /** Negation cancels under addition, and the reductions ask for all, any and an odd number of the bits. */
  lemma {:induction false} UnaryLaws(w: nat, x: nat)
    requires x < Pow2(w)
    ensures BinaryBits(Add, w, UnaryBits(Neg, w, x), x) == 0
    ensures UnaryBits(ReduceAnd, w, x) == 1 <==> AllBits(w, x)
    ensures UnaryBits(ReduceOr, w, x) == 1 <==> AnyBit(w, x)
    ensures UnaryBits(ReduceXor, w, x) == 1 <==> Ones(x, w) % 2 == 1
  {
    var m := Pow2(w);
    var q := (0 - x) / m;
    DivisionIsUnique((0 - x) % m + x, m, -q, 0);
    FullIffAllBits(w, x);
    NonzeroIffAnyBit(w, x);
    ParityIsOdd(w, x);
  }

  /** Complement flips every bit, and plus keeps every bit. */
  lemma {:induction false} UnaryBitLaws(w: nat, x: nat, i: nat)
    requires x < Pow2(w) && i < w
    ensures Bit(UnaryBits(BitNot, w, x), i) == 1 - Bit(x, i)
    ensures Bit(UnaryBits(Plus, w, x), i) == Bit(x, i)
  {
    var m := Pow2(w);
    DivisionIsUnique(m - 1 - x, m, 0, m - 1 - x);
    ComplementBit(w, x, i);
  }

  // ----- Joining, extending, repeating -----

  /** Joined bits: the lower operand's below its width, the upper operand's above it. */
  lemma {:induction false} AboveBit(x: nat, y: nat, w: nat, i: nat)
    requires y < Pow2(w)
    ensures Bit(Above(x, y, w), i) == if i < w then Bit(y, i) else Bit(x, i - w)
    decreases w
  {
    if w > 0 {
      var z := Above(x, y, w);
      assert z / 2 == Above(x, y / 2, w - 1) && z % 2 == y % 2;
      BitStep(y, 0);
      BitStep(z, 0);
      if i > 0 {
        BitStep(y, i - 1);
        BitStep(z, i - 1);
        AboveBit(x, y / 2, w - 1, i - 1);
      }
    }
  }

  /** A bit of an extracted range is the bit that far above its lowest. */
  lemma {:induction false} ExtractedBit(x: nat, low: nat, w: nat, i: nat)
    requires i < w
    ensures Bit(Extracted(x, low, w), i) == Bit(x, low + i)
  {
    LowBitsKeeps(ShiftedDown(x, low), w, i);
    ShiftedDownAdds(x, low, i);
  }

  lemma {:induction false} TopBit(w: nat, x: nat)
    requires x < Pow2(w)
    ensures Negative(w, x) <==> w > 0 && Bit(x, w - 1) == 1
    decreases w
  {
    if w > 0 {
      BitStep(x, 0);
      if w > 1 {
        BitStep(x, w - 2);
        TopBit(w - 1, x / 2);
      }
    }
  }

  lemma {:induction false} FilledIsAbove(from: nat, to: nat, x: nat)
    requires from <= to
    ensures x + Fill(to, from) == Above(Pow2(to - from) - 1, x, from)
  {
    var n := to - from;
    ShiftedUpIsProduct(Pow2(n) - 1, from);
    Pow2Adds(n, from);
    assert (Pow2(n) - 1) * Pow2(from) == Pow2(n) * Pow2(from) - Pow2(from);
  }

  /** Sign extension keeps the bits there are and copies the top one above them. */
  lemma {:induction false} SignExtendedBit(from: nat, to: nat, x: nat, i: nat)
    requires x < Pow2(from) && from <= to && i < to
    ensures Bit(SignExtended(from, to, x), i) == if i < from then Bit(x, i) else if from == 0 then 0 else Bit(x, from - 1)
  {
    TopBit(from, x);
    if Negative(from, x) {
      FilledIsAbove(from, to, x);
      AboveBit(Pow2(to - from) - 1, x, from, i);
      if from <= i {
        ComplementBit(to - from, 0, i - from);
        BitsOfZero(i - from);
      }
    } else if from <= i {
      BitsAbove(from, x, i);
      if from > 0 {
        BitIsBit(x, from - 1);
      }
    }
  }

  lemma {:induction false} AboveShiftsDown(x: nat, y: nat, w: nat)
    requires y < Pow2(w)
    ensures ShiftedDown(Above(x, y, w), w) == x
    decreases w
  {
    if w > 0 {
      assert Above(x, y, w) / 2 == Above(x, y / 2, w - 1);
      AboveShiftsDown(x, y / 2, w - 1);
    }
  }

  /** Every copy in a repetition is the operand. */
  lemma {:induction false} RepeatedCopies(w: nat, x: nat, count: nat, k: nat)
    requires x < Pow2(w) && k < count
    ensures Extracted(Repeated(w, x, count), Times(k, w), w) == x
    decreases count
  {
    var upper := Repeated(w, x, count - 1);
    RepeatedInRange(w, x, count - 1);
    if k == 0 {
      AboveThenExtract(upper, Times(count - 1, w), x, w);
    } else {
      AboveShiftsDown(upper, x, w);
      ShiftedDownAdds(Above(upper, x, w), w, Times(k - 1, w));
      RepeatedCopies(w, x, count - 1, k - 1);
    }
  }
}
