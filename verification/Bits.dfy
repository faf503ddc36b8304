/** Powers of two, and the bitwise operators of the sources as functions on naturals. */
module Bits {
  function Pow2(n: nat): (p: nat)
    ensures p > 0
  {
    if n == 0 then 1 else 2 * Pow2(n - 1)
  }

  lemma {:induction false} Pow2Add(a: nat, b: nat)
    ensures Pow2(a + b) == Pow2(a) * Pow2(b)
  {
    if a > 0 {
      Pow2Add(a - 1, b);
      assert 2 * (Pow2(a - 1) * Pow2(b)) == (2 * Pow2(a - 1)) * Pow2(b);
    }
  }

  lemma {:induction false} Pow2Monotone(a: nat, b: nat)
    requires a <= b
    ensures Pow2(a) <= Pow2(b)
  {
    if a < b {
      Pow2Monotone(a, b - 1);
    }
  }

  lemma Pow2Values()
    ensures Pow2(1) == 2 && Pow2(8) == 0x100 && Pow2(16) == 0x1_0000 && Pow2(24) == 0x100_0000
    ensures Pow2(32) == 0x1_0000_0000
  {
    assert Pow2(8) == 0x100;
    Pow2Add(8, 8);
    Pow2Add(16, 8);
    Pow2Add(16, 16);
  }

  // ---------- division facts, nonlinear steps kept apart ----------

  /** Remainder and quotient by a divisor that is not a constant. */
  function Mod(n: int, d: int): (r: int)
    requires d > 0
    ensures 0 <= r < d
  {
    n % d
  }

  function Div(n: int, d: int): (q: int)
    requires d > 0
    ensures n >= 0 ==> 0 <= q <= n
  {
    DivShrinks(n, d);
    n / d
  }

  lemma DivShrinks(n: int, d: int)
    requires d > 0
    ensures n >= 0 ==> 0 <= n / d <= n
  {
    if n >= 0 {
      DivModSplit(n, d);
      MulLe(1, d, n / d);
    }
  }

  lemma DivModUnique(n: int, d: int, q: int, r: int)
    requires d > 0 && n == q * d + r && 0 <= r < d
    ensures n / d == q && n % d == r
  {
    var k := n / d - q;
    assert k * d == r - n % d by {
      assert n == (n / d) * d + n % d;
      assert k * d == (n / d) * d - q * d;
    }
    SmallMultiple(k, d, r - n % d);
  }

  lemma SmallMultiple(k: int, d: int, x: int)
    requires d > 0 && k * d == x && -d < x < d
    ensures k == 0
  {
    if k >= 1 {
      MulLe(1, k, d);
    } else if k <= -1 {
      assert (-k) * d == -(k * d);
      MulLe(1, -k, d);
    }
  }

  lemma DivModSplit(n: int, d: int)
    requires d > 0
    ensures n == (n / d) * d + n % d && 0 <= n % d < d
    ensures n >= 0 ==> n / d >= 0
  {
  }

  lemma MulLe(a: nat, b: nat, c: nat)
    requires a <= b
    ensures a * c <= b * c
  {
  }

  /** Dividing by one factor after the other. */
  lemma DivDiv(n: nat, a: nat, b: nat)
    requires a > 0 && b > 0
    ensures a * b > 0 && n / (a * b) == (n / a) / b
  {
    DivModSplit(n, a);
    DivModSplit(n / a, b);
    var q := (n / a) / b;
    var r := ((n / a) % b) * a + n % a;
    assert n == q * (a * b) + r by {
      assert (q * b + (n / a) % b) * a == q * (a * b) + ((n / a) % b) * a;
    }
    assert r < a * b by {
      MulLe((n / a) % b, b - 1, a);
      assert (b - 1) * a == a * b - a;
    }
    assert a * b > 0;
    DivModUnique(n, a * b, q, r);
  }

  lemma MulDivExact(a: nat, d: nat)
    requires d > 0
    ensures (a * d) / d == a && (a * d) % d == 0
  {
    DivModUnique(a * d, d, a, 0);
  }

  // ---------- bitwise or, and ----------

  function Or(x: nat, y: nat): nat {
    if x == 0 && y == 0 then 0
    else (if x % 2 == 1 || y % 2 == 1 then 1 else 0) + 2 * Or(x / 2, y / 2)
  }

  function And(x: nat, y: nat): nat {
    if x == 0 || y == 0 then 0
    else (if x % 2 == 1 && y % 2 == 1 then 1 else 0) + 2 * And(x / 2, y / 2)
  }

  lemma {:induction false} OrZero(y: nat)
    ensures Or(0, y) == y && Or(y, 0) == y
  {
    if y > 0 {
      OrZero(y / 2);
    }
  }

  /** Bits that do not overlap: or is addition. */
  lemma {:induction false} OrDisjoint(x: nat, y: nat, k: nat)
    requires x < Pow2(k) && y % Pow2(k) == 0
    ensures Or(x, y) == x + y && Or(y, x) == x + y
  {
    if k == 0 {
      OrZero(y);
    } else if x != 0 || y != 0 {
      var p := Pow2(k - 1);
      var q := y / Pow2(k);
      assert y == q * (2 * p) by { DivModSplit(y, Pow2(k)); }
      assert y == 2 * (q * p);
      MulDivExact(q, p);
      OrDisjoint(x / 2, y / 2, k - 1);
    }
  }

  /** Masking with 2^k - 1 keeps the remainder by 2^k. */
  lemma {:induction false} AndMask(x: nat, k: nat)
    ensures And(x, Pow2(k) - 1) == x % Pow2(k)
  {
    if k == 0 {
    } else if x == 0 {
    } else {
      var p := Pow2(k - 1);
      AndMask(x / 2, k - 1);
      assert (Pow2(k) - 1) / 2 == p - 1 && (Pow2(k) - 1) % 2 == 1;
      var q, r := (x / 2) / p, (x / 2) % p;
      DivModSplit(x / 2, p);
      assert x == q * Pow2(k) + (2 * r + x % 2) by { assert 2 * (q * p) == q * (2 * p); }
      DivModUnique(x, Pow2(k), q, 2 * r + x % 2);
    }
  }

  /** Bit `k` of `x`. */
  predicate Bit(x: nat, k: nat) {
    (x / Pow2(k)) % 2 == 1
  }

  /** Testing a bit with a one-bit mask. */
  lemma {:induction false} AndBit(x: nat, k: nat)
    ensures And(x, Pow2(k)) == if Bit(x, k) then Pow2(k) else 0
  {
    if x == 0 {
    } else if k == 0 {
      assert And(x / 2, 0) == 0;
    } else {
      AndBit(x / 2, k - 1);
      DivDiv(x, 2, Pow2(k - 1));
      assert Pow2(k) / 2 == Pow2(k - 1) && Pow2(k) % 2 == 0;
    }
  }
}
