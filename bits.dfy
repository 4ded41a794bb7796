/** Unsigned 32-bit integers and the C bit operators the register hash uses
    (`>>`, `<<`, `&`), defined bit by bit and related to division and
    remainder by powers of two. */
module Bits {

  const U32_LIMIT: int := 0x1_0000_0000

  /** C `uint32_t` / `unsigned` on the targets the driver runs on. */
  type u32 = x: int | 0 <= x < U32_LIMIT

  /** Conversion of an integer to a 32-bit unsigned value, as C does for the
      result of unsigned arithmetic (wrap-around modulo 2^32). */
  function Wrap32(x: int): (r: u32)
    ensures (x - r) % U32_LIMIT == 0
    ensures 0 <= x < U32_LIMIT ==> r == x
    ensures -U32_LIMIT <= x < 0 ==> r == x + U32_LIMIT
  {
    x % U32_LIMIT
  }

  function Pow2(n: nat): (r: nat)
    ensures r >= 1
  {
    if n == 0 then 1 else 2 * Pow2(n - 1)
  }

  /** `x >> n` on an unsigned value: n halvings, each dropping the low bit. */
  function ShiftRight(x: nat, n: nat): nat
  {
    if n == 0 then x else ShiftRight(x / 2, n - 1)
  }

  /** `x << n` on an unbounded value: n doublings. */
  function ShiftLeft(x: nat, n: nat): nat
    decreases n
  {
    if n == 0 then x else ShiftLeft(2 * x, n - 1)
  }

  /** `a & b` on unsigned values, taken bit by bit from the least significant. */
  function And(a: nat, b: nat): (r: nat)
    ensures r <= a && r <= b
  {
    if a == 0 || b == 0 then 0
    else 2 * And(a / 2, b / 2) + (if a % 2 == 1 && b % 2 == 1 then 1 else 0)
  }

  /** Division with remainder has exactly one answer. */
  lemma DivModUnique(x: int, d: int, q: int, r: int)
    requires d > 0 && 0 <= r < d && x == d * q + r
    ensures x / d == q && x % d == r
  {
    var q', r' := x / d, x % d;
    assert x == d * q' + r';
    assert d * (q - q') == r' - r by {
      assert d * (q - q') == d * q - d * q';
    }
    if q > q' {
      MulAtLeast(d, q - q');
    } else if q < q' {
      MulAtLeast(d, q' - q);
    }
  }

  /** Adding k multiples of d moves the quotient by k and keeps the remainder. */
  lemma DivAddMultiple(x: int, d: int, k: int)
    requires d > 0
    ensures (x + d * k) / d == x / d + k
    ensures (x + d * k) % d == x % d
  {
    assert x + d * k == d * (x / d + k) + x % d;
    DivModUnique(x + d * k, d, x / d + k, x % d);
  }

  /** Dividing by a and then by b is dividing by a * b. */
  lemma DivDiv(x: nat, a: nat, b: nat)
    requires a > 0 && b > 0
    ensures x / a / b == x / (a * b)
  {
    var q, s := x / a / b, x / a % b;
    assert x == a * (x / a) + x % a;
    assert x / a == b * q + s;
    assert a * (b * q + s) == (a * b) * q + a * s;
    assert a * s <= a * (b - 1) by {
      if s < b - 1 { MulAtLeast(a, b - 1 - s); }
    }
    assert a * (b - 1) == a * b - a;
    DivModUnique(x, a * b, q, a * s + x % a);
  }

  lemma MulAtLeast(d: nat, t: int)
    requires t >= 1
    ensures d * t >= d
  {
    assert d * t == d * (t - 1) + d;
  }

  /** Dividing by 2p is halving and then dividing by p; the remainder by 2p
      is rebuilt from the remainder by p of the half and the dropped bit. */
  lemma HalveThenDivide(x: nat, p: nat)
    requires p > 0
    ensures x / (2 * p) == (x / 2) / p
    ensures x % (2 * p) == 2 * ((x / 2) % p) + x % 2
  {
    var q, s := (x / 2) / p, (x / 2) % p;
    assert x / 2 == p * q + s;
    assert x == (2 * p) * q + (2 * s + x % 2);
    DivModUnique(x, 2 * p, q, 2 * s + x % 2);
  }

  lemma {:induction false} ShiftRightIsDiv(x: nat, n: nat)
    ensures ShiftRight(x, n) == x / Pow2(n)
  {
    if n > 0 {
      ShiftRightIsDiv(x / 2, n - 1);
      HalveThenDivide(x, Pow2(n - 1));
    }
  }

  lemma {:induction false} ShiftLeftIsMul(x: nat, n: nat)
    ensures ShiftLeft(x, n) == x * Pow2(n)
    decreases n
  {
    if n > 0 {
      ShiftLeftIsMul(2 * x, n - 1);
      assert (2 * x) * Pow2(n - 1) == x * (2 * Pow2(n - 1));
    }
  }

  /** Masking with `2^k - 1` keeps the low k bits: the remainder by 2^k. */
  lemma {:induction false} AndLowMask(x: nat, k: nat)
    ensures And(x, Pow2(k) - 1) == x % Pow2(k)
  {
    if k == 0 {
      assert Pow2(k) == 1;
    } else if x == 0 {
      assert And(x, Pow2(k) - 1) == 0;
    } else {
      var p := Pow2(k - 1);
      var m := Pow2(k) - 1;
      assert m == 2 * (p - 1) + 1;
      DivModUnique(m, 2, p - 1, 1);
      assert And(x, m) == 2 * And(x / 2, p - 1) + x % 2;
      AndLowMask(x / 2, k - 1);
      HalveThenDivide(x, p);
      assert x % Pow2(k) == 2 * ((x / 2) % p) + x % 2;
    }
  }

  /** Two different single bits have no bit in common; a bit has itself. */
  lemma {:induction false} AndOfPow2(i: nat, j: nat)
    ensures And(Pow2(i), Pow2(j)) == if i == j then Pow2(i) else 0
  {
    if i > 0 && j > 0 {
      AndOfPow2(i - 1, j - 1);
    } else if i > 0 {
      assert Pow2(i) % 2 == 0;
      assert And(Pow2(i), Pow2(j)) == 2 * And(Pow2(i - 1), 0);
    } else if j > 0 {
      assert Pow2(j) % 2 == 0;
      assert And(Pow2(i), Pow2(j)) == 2 * And(0, Pow2(j - 1));
    }
  }
}
