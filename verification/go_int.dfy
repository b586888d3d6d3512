/** Go's `int` on a 64-bit platform: two's-complement wrap-around on overflow,
    and the `/` and `%` operators, which truncate toward zero (Dafny's own
    `/` and `%` are Euclidean, so they are not used on signed operands here). */
module GoInt {

  const MinInt64: int := -0x8000_0000_0000_0000
  const MaxInt64: int := 0x7fff_ffff_ffff_ffff
  const Modulus64: int := 0x1_0000_0000_0000_0000

  type Int64 = x: int | MinInt64 <= x <= MaxInt64

  function Abs(x: int): nat
  {
    if x < 0 then -x else x
  }

  /** The int64 value a mathematical result wraps around to: the one value in
      range that is congruent to `x` modulo 2^64. */
  function Wrap64(x: int): (r: Int64)
    ensures (r - x) % Modulus64 == 0
    ensures MinInt64 <= x <= MaxInt64 ==> r == x
  {
    (x - MinInt64) % Modulus64 + MinInt64
  }

  /** Quotient rounded toward zero. */
  function TruncDiv(a: int, b: int): int
    requires b != 0
  {
    if (a < 0) == (b < 0) then Abs(a) / Abs(b) else -(Abs(a) / Abs(b))
  }

  /** Remainder of the quotient rounded toward zero: it takes the sign of `a`. */
  function TruncMod(a: int, b: int): int
    requires b != 0
  {
    if a < 0 then -(Abs(a) % Abs(b)) else Abs(a) % Abs(b)
  }

  /** The rule Go's specification gives for integer division: `a == q*b + r`
      with `|r| < |b|`, and `r` is zero or has the sign of `a`. */
  ghost predicate IsTruncDivision(a: int, b: int, q: int, r: int)
  {
    && b != 0
    && a == q * b + r
    && Abs(r) < Abs(b)
    && (a >= 0 ==> r >= 0)
    && (a < 0 ==> r <= 0)
  }

  lemma NatDivMod(x: nat, y: nat)
    requires y > 0
    ensures x == (x / y) * y + x % y
    ensures 0 <= x % y < y
    ensures 0 <= x / y
    ensures (x / y) * y <= x
  {
  }

  lemma MulNegate(x: int, y: int)
    ensures (-x) * y == -(x * y)
    ensures x * (-y) == -(x * y)
    ensures (-x) * (-y) == x * y
  {
  }

  /** TruncDiv and TruncMod satisfy Go's division rule. */
  lemma TruncDivModSound(a: int, b: int)
    requires b != 0
    ensures IsTruncDivision(a, b, TruncDiv(a, b), TruncMod(a, b))
  {
    var x: int, y: int := Abs(a), Abs(b);
    NatDivMod(x, y);
    var q0: int, r0: int := x / y, x % y;
    var q, r := TruncDiv(a, b), TruncMod(a, b);
    MulNegate(q0, y);
    if a >= 0 {
      assert r == r0;
      if b > 0 {
        assert q * b == q0 * y;
      } else {
        assert q * b == (-q0) * (-y);
      }
      assert a == q * b + r;
    } else {
      assert r == -r0;
      if b > 0 {
        assert q * b == (-q0) * y;
      } else {
        assert q * b == q0 * (-y);
      }
      assert a == q * b + r;
    }
  }

  /** Multiplying by a factor of at least one does not shrink a natural. */
  lemma {:induction false} MulMonotone(q: nat, y: nat, z: nat)
    requires z <= y
    ensures q * z <= q * y
  {
    if q > 0 {
      MulMonotone(q - 1, y, z);
      assert q * y == (q - 1) * y + y;
      assert q * z == (q - 1) * z + z;
    }
  }

  lemma AbsMul(d: int, b: int)
    ensures Abs(d * b) == Abs(d) * Abs(b)
  {
    if d < 0 && b < 0 {
      assert d * b == (-d) * (-b);
    } else if d < 0 {
      assert d * b == -((-d) * b);
    } else if b < 0 {
      assert d * b == -(d * (-b));
    }
  }

  lemma MulBounds(d: int, b: int)
    requires d != 0
    ensures Abs(d * b) >= Abs(b)
  {
    AbsMul(d, b);
    MulMonotone(Abs(b), Abs(d), 1);
    assert Abs(b) * Abs(d) == Abs(d) * Abs(b);
  }

  lemma MulSubDistrib(q: int, q': int, b: int)
    ensures (q - q') * b == q * b - q' * b
  {
  }

  /** Go's division rule determines the quotient and remainder uniquely, so
      TruncDiv and TruncMod are the only pair that satisfies it. */
  lemma TruncDivModUnique(a: int, b: int, q: int, r: int)
    requires IsTruncDivision(a, b, q, r)
    ensures q == TruncDiv(a, b) && r == TruncMod(a, b)
  {
    TruncDivModSound(a, b);
    var q', r' := TruncDiv(a, b), TruncMod(a, b);
    MulSubDistrib(q, q', b);
    assert (q - q') * b == r' - r;
    // r and r' lie on the same side of zero, so they differ by less than |b|
    assert Abs(r' - r) < Abs(b);
    if q != q' {
      MulBounds(q - q', b);
      assert false;
    }
  }

  /** The truncated quotient is never larger in magnitude than the dividend,
      and is at most half of it once the divisor has magnitude two or more. */
  lemma TruncDivMagnitude(a: int, b: int)
    requires b != 0
    ensures Abs(TruncDiv(a, b)) <= Abs(a)
    ensures Abs(b) >= 2 ==> 2 * Abs(TruncDiv(a, b)) <= Abs(a)
  {
    var x, y := Abs(a), Abs(b);
    NatDivMod(x, y);
    var q0 := x / y;
    assert Abs(TruncDiv(a, b)) == q0;
    MulMonotone(q0, y, 1);
    if y >= 2 {
      MulMonotone(q0, y, 2);
    }
  }

  /** Go's `a / b` on int64. The one quotient that leaves the range,
      MinInt64 / -1, wraps around to MinInt64. */
  function Quo(a: Int64, b: Int64): (q: Int64)
    requires b != 0
    ensures !(a == MinInt64 && b == -1) ==> q == TruncDiv(a, b)
    ensures a == MinInt64 && b == -1 ==> q == MinInt64
  {
    TruncDivMagnitude(a, b);
    Wrap64(TruncDiv(a, b))
  }

  /** Go's `a % b` on int64; it never overflows. */
  function Rem(a: Int64, b: Int64): (r: Int64)
    requires b != 0
    ensures r == TruncMod(a, b)
    ensures Abs(r) < Abs(b)
  {
    TruncDivModSound(a, b);
    TruncMod(a, b)
  }

  /** Go's identity `q*b + r == a` for `q, r := a / b, a % b`, which holds in
      int64 arithmetic even for MinInt64 / -1, and holds without wrap-around
      for every other pair of operands. */
  lemma QuoRemIdentity(a: Int64, b: Int64)
    requires b != 0
    ensures Wrap64(Quo(a, b) * b + Rem(a, b)) == a
    ensures !(a == MinInt64 && b == -1) ==> IsTruncDivision(a, b, Quo(a, b), Rem(a, b))
  {
    TruncDivModSound(a, b);
    if a == MinInt64 && b == -1 {
      assert Quo(a, b) * b + Rem(a, b) == -MinInt64;
      assert Wrap64(-MinInt64) == MinInt64;
    }
  }

  /** On non-negative operands Go's operators agree with Dafny's. */
  lemma QuoRemOfNonNegative(a: Int64, b: Int64)
    requires a >= 0 && b > 0
    ensures Quo(a, b) == a / b && Rem(a, b) == a % b
  {
  }
}
