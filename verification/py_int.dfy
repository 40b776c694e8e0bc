/** Python's integers as the simulator uses them: unbounded, with the bitwise
    operators acting on an infinite two's-complement representation, `>>` as
    floor division by a power of two and `<<` as multiplication by one.
    The masks the simulator writes (`& 0xFF`, `& 0xFFFF`, `& 0xFFFFFFFF`,
    `& 0x1F`, a bit test `& 2^k`) are written as the remainders and bit
    tests they compute, and MasksAreAnds and BitSetIsAnd prove them equal
    to Python's `&`; the other operators (`|`, `^`, `&` on two registers,
    `& ~1`) are computed here exactly as Python computes them. */
module PyInt {

  const MASK8: int := 0xFF
  const MASK16: int := 0xFFFF
  const MASK32: int := 0xFFFF_FFFF
  const TWO32: int := 0x1_0000_0000

  /** 2 to the power n. */
  function Pow2(n: nat): (r: nat)
    ensures r >= 1
  {
    if n == 0 then 1 else 2 * Pow2(n - 1)
  }

  lemma {:induction false} Pow2Add(m: nat, n: nat)
    ensures Pow2(m + n) == Pow2(m) * Pow2(n)
  {
    if m > 0 {
      Pow2Add(m - 1, n);
    }
  }

  /** The powers of two that appear as literals in the simulator. */
  lemma Pow2Table()
    ensures Pow2(5) == 32 && Pow2(7) == 0x80 && Pow2(8) == 0x100
    ensures Pow2(12) == 0x1000 && Pow2(15) == 0x8000 && Pow2(16) == 0x1_0000
    ensures Pow2(24) == 0x100_0000 && Pow2(31) == 0x8000_0000 && Pow2(32) == TWO32
  {
    assert Pow2(4) == 16;
    assert Pow2(5) == 32;
    Pow2Add(4, 4);
    Pow2Add(7, 1);
    Pow2Add(8, 4);
    Pow2Add(8, 7);
    Pow2Add(8, 8);
    Pow2Add(16, 8);
    Pow2Add(16, 15);
    Pow2Add(16, 16);
  }

  lemma Pow2Word()
    ensures Pow2(32) == TWO32
  {
    Pow2Table();
  }

  // ---------------------------------------------------------------------
  // Integer division facts (Dafny's / and % by a positive divisor are
  // floor division and a non-negative remainder, exactly as in Python).

  lemma {:induction false} MulAtLeast(d: int, k: int)
    requires d > 0 && k >= 1
    ensures d * k >= d
  {
    if k > 1 {
      MulAtLeast(d, k - 1);
      assert d * k == d * (k - 1) + d;
    }
  }

  /** Quotient and remainder are determined by the division equation. */
  lemma DivModUnique(x: int, d: int, q: int, r: int)
    requires d > 0 && 0 <= r < d && x == d * q + r
    ensures q == x / d && r == x % d
  {
    var q0, r0 := x / d, x % d;
    assert d * (q - q0) == r0 - r;
    if q > q0 {
      MulAtLeast(d, q - q0);
      assert false;
    } else if q < q0 {
      MulAtLeast(d, q0 - q);
      assert false;
    }
  }

  /** A value already below the divisor is its own remainder. */
  lemma ModOfSmall(x: int, d: int)
    requires 0 <= x < d
    ensures x % d == x && x / d == 0
  {
    DivModUnique(x, d, 0, x);
  }

  /** Dividing by 2 and then by p is dividing by 2p; the remainders combine. */
  lemma DivModHalf(x: int, p: int)
    requires p > 0
    ensures x / (2 * p) == (x / 2) / p
    ensures x % (2 * p) == 2 * ((x / 2) % p) + x % 2
  {
    var q, r := (x / 2) / p, (x / 2) % p;
    assert x / 2 == p * q + r;
    assert x == (2 * p) * q + (2 * r + x % 2);
    DivModUnique(x, 2 * p, q, 2 * r + x % 2);
  }

  /** Adding a multiple of d does not change the remainder. */
  lemma ModAddMultiple(x: int, k: int, d: int)
    requires d > 0
    ensures (x + k * d) % d == x % d
    ensures (x + k * d) / d == x / d + k
  {
    DivModUnique(x + k * d, d, x / d + k, x % d);
  }

  // ---------------------------------------------------------------------
  // Bitwise operators.

  datatype BitOp = AndOp | OrOp | XorOp

  function ApplyBit(op: BitOp, x: bool, y: bool): bool
  {
    match op
    case AndOp => x && y
    case OrOp => x || y
    case XorOp => x != y
  }

  /** The number of bits before the infinite run of sign bits starts to
      repeat: 0 and -1 are their own halves and have size 0. */
  function Size(a: int): nat
  {
    if a < 0 then -a - 1 else a
  }

  /** Python's `a & b`, `a | b` and `a ^ b`: the lowest bit is combined and
      the rest is the operator applied to the halves (floor division), until
      both operands are a pure run of sign bits. */
  function Bitwise(op: BitOp, a: int, b: int): int
    decreases Size(a) + Size(b)
  {
    if (a == 0 || a == -1) && (b == 0 || b == -1) then
      (if ApplyBit(op, a == -1, b == -1) then -1 else 0)
    else
      2 * Bitwise(op, a / 2, b / 2) + (if ApplyBit(op, a % 2 == 1, b % 2 == 1) then 1 else 0)
  }

  function And(a: int, b: int): int { Bitwise(AndOp, a, b) }
  function Or(a: int, b: int): int { Bitwise(OrOp, a, b) }
  function Xor(a: int, b: int): int { Bitwise(XorOp, a, b) }

  /** Python's `a << s`. */
  function Shl(a: int, s: nat): int { a * Pow2(s) }

  /** Python's `a >> s`: division rounding toward minus infinity. */
  function Shr(a: int, s: nat): int { a / Pow2(s) }

  /** The recursion step holds for every pair of operands, including the
      pure sign runs of the base case. */
  lemma BitwiseStep(op: BitOp, a: int, b: int)
    ensures Bitwise(op, a, b)
         == 2 * Bitwise(op, a / 2, b / 2) + (if ApplyBit(op, a % 2 == 1, b % 2 == 1) then 1 else 0)
  {
    if (a == 0 || a == -1) && (b == 0 || b == -1) {
      assert a / 2 == a && b / 2 == b;
    }
  }

  /** The sign of the result is the operator applied to the signs. */
  lemma {:induction false} BitwiseSign(op: BitOp, a: int, b: int)
    ensures Bitwise(op, a, b) < 0 <==> ApplyBit(op, a < 0, b < 0)
    decreases Size(a) + Size(b)
  {
    if !((a == 0 || a == -1) && (b == 0 || b == -1)) {
      BitwiseSign(op, a / 2, b / 2);
    }
  }

  lemma {:induction false} BitwiseCommutes(op: BitOp, a: int, b: int)
    ensures Bitwise(op, a, b) == Bitwise(op, b, a)
    decreases Size(a) + Size(b)
  {
    if !((a == 0 || a == -1) && (b == 0 || b == -1)) {
      BitwiseCommutes(op, a / 2, b / 2);
    }
  }

  lemma {:induction false} AndZero(x: int)
    ensures And(x, 0) == 0
    decreases Size(x)
  {
    if !(x == 0 || x == -1) {
      AndZero(x / 2);
    }
  }

  lemma {:induction false} AndMinusOne(x: int)
    ensures And(x, -1) == x
    decreases Size(x)
  {
    if !(x == 0 || x == -1) {
      AndMinusOne(x / 2);
    }
  }

  lemma {:induction false} OrZero(x: int)
    ensures Or(x, 0) == x
    decreases Size(x)
  {
    if !(x == 0 || x == -1) {
      OrZero(x / 2);
    }
  }

  /** `x & (2^k - 1)` keeps the k low bits: it is x modulo 2^k. */
  lemma {:induction false} AndLowMask(x: int, k: nat)
    ensures And(x, Pow2(k) - 1) == x % Pow2(k)
    decreases k
  {
    if k == 0 {
      AndZero(x);
    } else {
      var p := Pow2(k - 1);
      BitwiseStep(AndOp, x, 2 * p - 1);
      assert (2 * p - 1) / 2 == p - 1 && (2 * p - 1) % 2 == 1;
      AndLowMask(x / 2, k - 1);
      DivModHalf(x, p);
    }
  }

  /** `x & 2^k` isolates bit k. */
  lemma {:induction false} AndBit(x: int, k: nat)
    ensures And(x, Pow2(k)) == if (x / Pow2(k)) % 2 == 1 then Pow2(k) else 0
    decreases k
  {
    if k == 0 {
      BitwiseStep(AndOp, x, 1);
      AndZero(x / 2);
    } else {
      var p := Pow2(k - 1);
      BitwiseStep(AndOp, x, 2 * p);
      assert (2 * p) / 2 == p && (2 * p) % 2 == 0;
      AndBit(x / 2, k - 1);
      DivModHalf(x, p);
    }
  }

  /** Or-ing a value below 2^k into a multiple of 2^k is addition. */
  lemma {:induction false} OrDisjoint(a: int, b: int, k: nat)
    requires 0 <= b < Pow2(k)
    ensures Or(a * Pow2(k), b) == a * Pow2(k) + b
    ensures Or(b, a * Pow2(k)) == a * Pow2(k) + b
  {
    BitwiseCommutes(OrOp, a * Pow2(k), b);
    if k == 0 {
      OrZero(a);
    } else {
      var p := Pow2(k - 1);
      assert a * Pow2(k) == 2 * (a * p);
      BitwiseStep(OrOp, a * Pow2(k), b);
      assert (a * Pow2(k)) / 2 == a * p && (a * Pow2(k)) % 2 == 0;
      OrDisjoint(a, b / 2, k - 1);
    }
  }

  /** And, or and xor of two k-bit values is a k-bit value. */
  lemma {:induction false} BitwiseBound(op: BitOp, a: int, b: int, k: nat)
    requires 0 <= a < Pow2(k) && 0 <= b < Pow2(k)
    ensures 0 <= Bitwise(op, a, b) < Pow2(k)
    decreases k
  {
    if k > 0 && !(a == 0 && b == 0) {
      BitwiseStep(op, a, b);
      BitwiseBound(op, a / 2, b / 2, k - 1);
    }
  }

  /** Shifting both operands left by k shifts the result. */
  lemma {:induction false} BitwiseShifted(op: BitOp, a: int, b: int, k: nat)
    ensures Bitwise(op, a * Pow2(k), b * Pow2(k)) == Bitwise(op, a, b) * Pow2(k)
  {
    if k > 0 {
      var p := Pow2(k - 1);
      var x, y, r := a * p, b * p, Bitwise(op, a, b);
      BitwiseShifted(op, a, b, k - 1);
      assert Bitwise(op, x, y) == r * p;
      assert Pow2(k) == 2 * p;
      TimesDouble(a, p);
      TimesDouble(b, p);
      TimesDouble(r, p);
      BitwiseStep(op, 2 * x, 2 * y);
      assert (2 * x) / 2 == x && (2 * x) % 2 == 0 && (2 * y) / 2 == y && (2 * y) % 2 == 0;
      assert Bitwise(op, 2 * x, 2 * y) == 2 * (r * p);
    }
  }

  lemma TimesDouble(a: int, p: int)
    ensures a * (2 * p) == 2 * (a * p)
  {
  }

  /** Quotient and remainder by a product of two divisors. */
  lemma DivModProduct(x: int, p: int, q: int)
    requires p > 0 && q > 0
    ensures x / (p * q) == (x / p) / q
    ensures x % (p * q) == x % p + p * ((x / p) % q)
  {
    var a, b := (x / p) / q, (x / p) % q;
    assert x / p == q * a + b;
    assert x == p * (x / p) + x % p;
    assert x == (p * q) * a + (p * b + x % p);
    assert p * b + x % p < p * q by {
      assert b <= q - 1;
      assert p * b <= p * (q - 1);
    }
    DivModUnique(x, p * q, a, p * b + x % p);
  }

  /** `x & ~1` (that is, `x & -2`) clears bit 0. */
  lemma AndNotOne(x: int)
    ensures And(x, -2) == x - x % 2
  {
    BitwiseStep(AndOp, x, -2);
    AndMinusOne(x / 2);
  }

  // ---------------------------------------------------------------------
  // The masks of the simulator.

  /** `x & 0xFFFFFFFF` (MasksAreAnds). */
  function Mask32(x: int): (r: int)
    ensures 0 <= r < TWO32
  {
    x % TWO32
  }

  /** `x & 0xFF`. */
  function Mask8(x: int): (r: int)
    ensures 0 <= r < 0x100
  {
    x % 0x100
  }

  /** `x & 0xFFFF`. */
  function Mask16(x: int): (r: int)
    ensures 0 <= r < 0x1_0000
  {
    x % 0x1_0000
  }

  /** `x & 0x1F`, the shift-amount mask. */
  function ShiftAmount(x: int): (r: nat)
    ensures r < 32
  {
    x % 32
  }

  /** The truth value of `x & 2^k` in a Python `if` (BitSetIsAnd). */
  function BitSet(x: int, k: nat): bool
  {
    (x / Pow2(k)) % 2 == 1
  }

  /** Each mask is Python's `&` with the mask constant. */
  lemma MasksAreAnds(x: int)
    ensures Mask32(x) == And(x, MASK32) && Mask16(x) == And(x, MASK16)
    ensures Mask8(x) == And(x, MASK8) && ShiftAmount(x) == And(x, 0x1F)
  {
    Pow2Table();
    AndLowMask(x, 32);
    AndLowMask(x, 16);
    AndLowMask(x, 8);
    AndLowMask(x, 5);
  }

  /** Testing bit k is Python's `x & 2^k` read as a truth value. */
  lemma BitSetIsAnd(x: int, k: nat)
    ensures BitSet(x, k) <==> And(x, Pow2(k)) != 0
  {
    AndBit(x, k);
  }

  /** `to_signed32` (finalGUI/backend_gui.py): reinterpret bit 31. */
  function ToSigned32(val: int): (r: int)
  {
    if BitSet(val, 31) then val - TWO32 else val
  }

  /** Floor division by a positive divisor moves toward minus infinity but
      never past the dividend's side of zero. */
  lemma DivBounds(t: int, d: int)
    requires d >= 1
    ensures t >= 0 ==> 0 <= t / d <= t
    ensures t < 0 ==> t <= t / d < 0
  {
    QuotientBounds(t, d, t / d, t % d);
  }

  lemma QuotientBounds(t: int, d: int, q: int, r: int)
    requires d >= 1 && 0 <= r < d && t == d * q + r
    ensures t >= 0 ==> 0 <= q <= t
    ensures t < 0 ==> t <= q < 0
  {
    if q >= 0 {
      ScaleAtLeast(d, q);
      assert t >= q;
    } else {
      ScaleAtLeast(d, -(q + 1));
      assert d * -(q + 1) == -(d * q) - d;
      assert t <= q;
    }
  }

  /** A non-negative value grows when scaled by a positive factor. */
  lemma ScaleAtLeast(d: int, k: int)
    requires d >= 1 && k >= 0
    ensures d * k >= k
  {
    if k > 0 {
      MulAtLeast(k, d);
      assert k * d == d * k;
    }
  }

  /** On a 32-bit pattern, to_signed32 is the two's-complement reading. */
  lemma ToSigned32Range(v: int)
    requires 0 <= v < TWO32
    ensures ToSigned32(v) == if v >= 0x8000_0000 then v - TWO32 else v
    ensures -0x8000_0000 <= ToSigned32(v) < 0x8000_0000
    ensures ToSigned32(v) % TWO32 == v
  {
    Pow2Table();
    assert BitSet(v, 31) <==> v >= 0x8000_0000;
    if v >= 0x8000_0000 {
      ModAddMultiple(v - TWO32, 1, TWO32);
    }
  }

  /** Masking a value of the signed 32-bit range and reading it back with
      to_signed32 gives the value again. */
  lemma SignedRoundTrip(q: int)
    requires -0x8000_0000 <= q < 0x8000_0000
    ensures ToSigned32(Mask32(q)) == q
  {
    if q >= 0 {
      ModOfSmall(q, TWO32);
    } else {
      ModAddMultiple(q, 1, TWO32);
      ModOfSmall(q + TWO32, TWO32);
    }
    ToSigned32Range(Mask32(q));
  }
}
