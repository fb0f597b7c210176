/** Products, quotients, powers of two, and the bits and digits of numbers. */
module Arith {

  /** Where unsigned 32-bit and 64-bit arithmetic wraps around. */
  const U32 := 0x1_0000_0000
  const U64 := 0x1_0000_0000_0000_0000

  function Max(a: int, b: int): int { if a < b then b else a }

  function Min(a: int, b: int): int { if a < b then a else b }

  lemma {:induction false} MulAtLeast(a: int, b: int)
    requires a >= 1 && b >= 0
    ensures a * b >= b
  {
  }

  lemma {:induction false} MulDivMod(q: int, y: int, r: int)
    requires 0 <= r < y
    ensures (q * y + r) / y == q && (q * y + r) % y == r
  {
    var x := q * y + r;
    var q', r' := x / y, x % y;
    assert x == q' * y + r';
    assert (q - q') * y == r' - r by { assert (q - q') * y == q * y - q' * y; }
    if q > q' { MulAtLeast(q - q', y); }
    assert (q' - q) * y == -((q - q') * y);
    if q < q' { MulAtLeast(q' - q, y); }
  }

  function Pow2(n: nat): (r: nat)
    ensures r >= 1
  {
    if n == 0 then 1 else 2 * Pow2(n - 1)
  }

  /** Bit k of a number. */
  predicate BitOf(x: nat, k: nat) {
    if k == 0 then x % 2 == 1 else BitOf(x / 2, k - 1)
  }

  /** Numbers with equal bits are equal. */
  lemma {:induction false} BitsDetermine(x: nat, y: nat, n: nat)
    requires x < Pow2(n) && y < Pow2(n)
    requires forall k :: 0 <= k < n ==> BitOf(x, k) == BitOf(y, k)
    ensures x == y
  {
    if n > 0 {
      assert BitOf(x, 0) == BitOf(y, 0);
      forall k | 0 <= k < n - 1
        ensures BitOf(x / 2, k) == BitOf(y / 2, k)
      {
        assert BitOf(x, k + 1) == BitOf(y, k + 1);
      }
      BitsDetermine(x / 2, y / 2, n - 1);
    }
  }

  lemma {:induction false} PowPlus8(n: nat)
    ensures Pow2(n + 8) == 256 * Pow2(n)
  {
    assert Pow2(n + 4) == 16 * Pow2(n) by { assert Pow2(n + 2) == 4 * Pow2(n); }
    assert Pow2(n + 8) == 16 * Pow2(n + 4) by { assert Pow2(n + 6) == 4 * Pow2(n + 4); }
  }

  lemma {:induction false} PowValues()
    ensures Pow2(7) == 0x80 && Pow2(8) == 0x100 && Pow2(15) == 0x8000 && Pow2(16) == 0x1_0000
    ensures Pow2(31) == 0x8000_0000 && Pow2(32) == U32 && Pow2(63) == 0x8000_0000_0000_0000 && Pow2(64) == U64
  {
    PowPlus8(0);
    PowPlus8(8);
    PowPlus8(16);
    PowPlus8(24);
    PowPlus8(32);
    PowPlus8(40);
    PowPlus8(48);
    PowPlus8(56);
  }

  /** A number in decimal, written with these digits. */
  function Decimal<T>(n: nat, digits: seq<T>): seq<T>
    requires |digits| == 10
  {
    if n < 10 then [digits[n]] else Decimal(n / 10, digits) + [digits[n % 10]]
  }
}
