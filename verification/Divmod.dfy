/**
 The 64-bit division helpers of kernel/src/compiler_rt_divmod.c. Unsigned words are numbers below
 2^64; shifts and negations wrap explicitly.
 */
module Divmod {
  const U64: int := 0x1_0000_0000_0000_0000
  const I64_MIN: int := -0x8000_0000_0000_0000
  const I64_MAX: int := 0x7FFF_FFFF_FFFF_FFFF

  type u64 = x: int | 0 <= x < U64
  type i64 = x: int | I64_MIN <= x <= I64_MAX

  ghost function Pow2(n: nat): (r: nat)
    ensures r >= 1
  {
    if n == 0 then 1 else 2 * Pow2(n - 1)
  }

  /** The shift-subtract division: exact quotient and remainder, and no shift ever overflows. */
  method UDivMod(a0: u64, b: u64) returns (quot: u64, rem: u64)
    ensures b == 0 ==> quot == 0 && rem == 0
    ensures b != 0 ==> a0 == quot * b + rem && rem < b
    ensures b != 0 ==> quot == a0 / b && rem == a0 % b
  {
    if b == 0 { return 0, 0; }
    if a0 < b {
      DivModUnique(a0, b, 0, a0);
      return 0, a0;
    }
    var div: u64, shift: nat := Align(a0, b);
    quot, rem := Subtract(a0, b, div, shift);
    DivModUnique(a0, b, quot, rem);
  }

  /** First loop: the largest doubling of b that does not exceed a0. */
  method Align(a0: u64, b: u64) returns (div: u64, shift: nat)
    requires 0 < b <= a0
    ensures div == b * Pow2(shift)
    ensures div <= a0 < 2 * div
  {
    div, shift := b, 0;
    while div / 0x8000_0000_0000_0000 == 0 && div <= a0 / 2
      invariant div == b * Pow2(shift)
      invariant 0 < div <= a0
      decreases a0 - div
    {
      assert 2 * div < U64;
      DoubleStep(b, shift);
      div := 2 * div;
      shift := shift + 1;
    }
  }

  lemma DoubleStep(b: nat, shift: nat)
    ensures b * Pow2(shift + 1) == 2 * (b * Pow2(shift))
  {
  }

  /** Second loop: one quotient bit per turn, halving the divisor back to b. */
  method Subtract(a0: u64, b: u64, div0: u64, shift0: nat) returns (quot: u64, a: u64)
    requires 0 < b && div0 == b * Pow2(shift0) && a0 < 2 * div0
    ensures a0 == quot * b + a && a < b
  {
    a, quot := a0, 0;
    var div: nat, shift := div0, shift0;
    while true
      invariant div == b * Pow2(shift) && div > 0
      invariant a0 == quot * (2 * div) + a && 0 <= a < 2 * div
      decreases shift
    {
      QuotientFits(a0, quot, 2 * div, a);
      assert quot * (2 * div) == (2 * quot) * div by { Regroup(quot, div); }
      var q2 := (2 * quot) % U64;
      assert q2 == 2 * quot by { DoubleFits(a0, quot, div, a); }
      quot := q2;
      if a >= div {
        OneMore(quot, div);
        AddFits(a0, quot, div, a);
        a := a - div;
        quot := quot + 1;
      }
      if shift == 0 {
        assert Pow2(0) == 1;
        return;
      }
      DoubleStep(b, shift - 1);
      div := div / 2;
      shift := shift - 1;
    }
  }

  lemma Regroup(q: int, d: int)
    ensures q * (2 * d) == (2 * q) * d
  {
  }

  lemma OneMore(q: int, d: int)
    ensures (q + 1) * d == q * d + d
  {
  }

  lemma QuotientFits(a0: nat, q: nat, d: nat, a: nat)
    requires d > 0 && a0 == q * d + a
    ensures q <= a0
  {
    if q > a0 {
      assert q * d >= q by { MulAtLeast(q, d); }
    }
  }

  lemma MulAtLeast(q: nat, d: nat)
    requires d >= 1
    ensures q * d >= q
  {
    assert q * d == q + q * (d - 1);
  }

  lemma DoubleFits(a0: u64, q: nat, d: nat, a: nat)
    requires d > 0 && a0 == q * (2 * d) + a
    ensures (2 * q) % U64 == 2 * q
  {
    Regroup(q, d);
    QuotientFits(a0, 2 * q, d, a);
  }

  lemma AddFits(a0: u64, q: nat, d: nat, a: nat)
    requires d > 0 && a0 == q * d + a && a >= d
    ensures q + 1 <= a0
  {
    OneMore(q, d);
    QuotientFits(a0, q + 1, d, a - d);
  }

  /** Division with a remainder below the divisor has one answer. */
  lemma DivModUnique(a: nat, b: nat, q: nat, r: nat)
    requires b > 0 && a == q * b + r && r < b
    ensures q == a / b && r == a % b
  {
    var q', r' := a / b, a % b;
    assert a == q' * b + r';
    if q > q' {
      assert q * b == q' * b + (q - q') * b;
      MulAtLeast(b, q - q');
    } else if q < q' {
      assert q' * b == q * b + (q' - q) * b;
      MulAtLeast(b, q' - q);
    }
  }

  // ---------------------------------------------------------------------------
  // Signed wrappers
  // ---------------------------------------------------------------------------

  function Abs(x: int): nat {
    if x < 0 then -x else x
  }

  /** Reinterpret an unsigned word as a signed one. */
  function ToSigned(x: u64): (r: i64)
    ensures (r - x) % U64 == 0
  {
    if x <= I64_MAX then x else x - U64
  }

  /** uabsdi: magnitude by unsigned wrap-around, so it is exact even for the most negative number. */
  function UAbs(v: i64): (r: u64)
    ensures r == Abs(v)
  {
    if v < 0 then (0 - (v + U64)) % U64 else v
  }

  /** Two's-complement negation. */
  function Neg(v: i64): (r: i64)
    ensures r == if v == I64_MIN then v else -v
  {
    if v == I64_MIN then v else -v
  }

  /** Quotient rounded toward zero (section 6.5.5 of ISO C11). */
  function TruncDiv(a: int, b: int): int
    requires b != 0
  {
    var q := Abs(a) / Abs(b);
    if (a < 0) != (b < 0) then -q else q
  }

  function TruncMod(a: int, b: int): int
    requires b != 0
  {
    var r := Abs(a) % Abs(b);
    if a < 0 then -r else r
  }

  /** Truncation toward zero is the one division whose remainder is smaller than the divisor and has the dividend's sign. */
  lemma TruncDivMeaning(a: int, b: int)
    requires b != 0
    ensures a == TruncDiv(a, b) * b + TruncMod(a, b)
    ensures Abs(TruncMod(a, b)) < Abs(b)
    ensures TruncMod(a, b) != 0 ==> (TruncMod(a, b) < 0 <==> a < 0)
  {
    var q, r := Abs(a) / Abs(b), Abs(a) % Abs(b);
    assert Abs(a) == q * Abs(b) + r;
    if b < 0 {
      assert q * -b == -q * b;
    }
  }

  /** The quotient leaves the 64-bit range for one pair of operands only. */
  lemma QuotientRange(a: i64, b: i64)
    requires b != 0
    ensures TruncDiv(a, b) == -I64_MIN <==> a == I64_MIN && b == -1
    ensures !(a == I64_MIN && b == -1) ==> I64_MIN <= TruncDiv(a, b) <= I64_MAX
  {
    var m, n := Abs(a), Abs(b);
    var q := m / n;
    assert q <= m by { QuotientFits(m, q, n, m % n); }
    if n >= 2 {
      assert m == q * n + m % n;
      assert q * n >= 2 * q by { MulMono(q, n); }
    } else {
      assert q == m;
    }
  }

  lemma MulMono(q: nat, n: nat)
    requires n >= 2
    ensures q * n >= 2 * q
  {
    assert q * n == 2 * q + q * (n - 2);
  }

  /** __divdi3: exact truncated quotient, except that INT64_MIN / -1 wraps to INT64_MIN. */
  method SDiv(a: i64, b: i64) returns (r: i64)
    ensures b == 0 ==> r == 0
    ensures b != 0 ==> (r - TruncDiv(a, b)) % U64 == 0
    ensures b != 0 && !(a == I64_MIN && b == -1) ==> r == TruncDiv(a, b)
  {
    if b == 0 { return 0; }
    var neg := (a < 0) != (b < 0);
    var uq, ur := UDivMod(UAbs(a), UAbs(b));
    var q := ToSigned(uq);
    QuotientRange(a, b);
    assert uq == Abs(a) / Abs(b);
    r := if neg then Neg(q) else q;
  }

  /** __moddi3: exact truncated remainder for all operands. */
  method SMod(a: i64, b: i64) returns (r: i64)
    ensures b == 0 ==> r == 0
    ensures b != 0 ==> r == TruncMod(a, b)
  {
    if b == 0 { return 0; }
    var uq, ur := UDivMod(UAbs(a), UAbs(b));
    assert ur < UAbs(b);
    assert ur == Abs(a) % Abs(b);
    var s := ToSigned(ur);
    r := if a < 0 then Neg(s) else s;
  }
}
