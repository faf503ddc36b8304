/** Numbers written in a base, the most significant digit first, and multiplying them in place. */
module Radix {
  import opened Bits

  // ---------- powers ----------

  function Pow(b: nat, n: nat): nat {
    if n == 0 then 1 else b * Pow(b, n - 1)
  }

  lemma {:induction false} PowPositive(b: nat, n: nat)
    requires b > 0
    ensures Pow(b, n) > 0
  {
    if n > 0 {
      PowPositive(b, n - 1);
      MulPositive(b, Pow(b, n - 1));
    }
  }

  lemma MulPositive(a: nat, b: nat)
    requires a > 0 && b > 0
    ensures a * b > 0
  {
  }

  lemma MulMonotone(a: nat, b: nat, c: nat, d: nat)
    requires a <= c && b <= d
    ensures a * b <= c * d
  {
    assert a * b <= a * d;
    assert a * d <= c * d;
  }

  lemma {:induction false} PowAdd(b: nat, m: nat, n: nat)
    ensures Pow(b, m + n) == Pow(b, m) * Pow(b, n)
  {
    if m > 0 {
      PowAdd(b, m - 1, n);
      MulAssoc(b, Pow(b, m - 1), Pow(b, n));
    }
  }

  lemma MulAssoc(a: int, b: int, c: int)
    ensures (a * b) * c == a * (b * c)
  {
  }

  lemma {:induction false} PowPow(b: nat, m: nat, n: nat)
    ensures Pow(b, m * n) == Pow(Pow(b, m), n)
  {
    if n > 0 {
      PowPow(b, m, n - 1);
      PowAdd(b, m, m * (n - 1));
      assert m * n == m + m * (n - 1);
    }
  }

  lemma {:induction false} PowMonotone(a: nat, b: nat, n: nat)
    requires a <= b
    ensures Pow(a, n) <= Pow(b, n)
  {
    if n > 0 {
      PowMonotone(a, b, n - 1);
      MulMonotone(a, Pow(a, n - 1), b, Pow(b, n - 1));
    }
  }

  lemma PowGrows(b: nat, m: nat, n: nat)
    requires b > 0 && m <= n
    ensures Pow(b, m) <= Pow(b, n)
  {
    PowAdd(b, m, n - m);
    PowPositive(b, n - m);
    MulMonotone(Pow(b, m), 1, Pow(b, m), Pow(b, n - m));
  }

  /** Comparing powers compares the bases. */
  lemma PowRoot(a: nat, b: nat, n: nat)
    requires n > 0 && Pow(a, n) <= Pow(b, n)
    ensures a <= b
  {
    if a > b {
      PowMonotone(b + 1, a, n);
      PowStrict(b, n);
    }
  }

  lemma {:induction false} PowStrict(b: nat, n: nat)
    requires n > 0
    ensures Pow(b, n) < Pow(b + 1, n)
  {
    if n > 1 {
      PowStrict(b, n - 1);
      PowPositive(b + 1, n - 1);
      NextProduct(b, Pow(b, n - 1), Pow(b + 1, n - 1));
    }
  }

  lemma NextProduct(b: nat, x: nat, y: nat)
    requires x < y
    ensures b * x < (b + 1) * y
  {
    MulMonotone(b, x, b, y);
    assert (b + 1) * y == b * y + y;
  }

  /** From one comparison a^p <= b^q, comparisons of all powers with at least that ratio of exponents. */
  lemma PowRatio(a: nat, p: nat, b: nat, q: nat, m: nat, n: nat)
    requires b > 0 && p > 0 && Pow(a, p) <= Pow(b, q) && q * m <= p * n
    ensures Pow(a, m) <= Pow(b, n)
  {
    hide Pow;
    PowPow(a, p, m);
    PowPow(b, q, m);
    PowMonotone(Pow(a, p), Pow(b, q), m);
    PowGrows(b, q * m, p * n);
    PowPow(b, n, p);
    PowPow(a, m, p);
    Commute(p, m);
    Commute(p, n);
    PowRoot(Pow(a, m), Pow(b, n), p);
  }

  lemma Commute(a: nat, b: nat)
    ensures a * b == b * a && a * b >= 0
  {
  }

  // ---------- numbers in a base ----------

  predicate Digits(s: seq<int>, base: nat) {
    forall i :: 0 <= i < |s| ==> 0 <= s[i] < base
  }

  function Value(s: seq<int>, base: nat): (v: int)
  {
    if s == [] then 0 else Value(s[..|s| - 1], base) * base + s[|s| - 1]
  }

  lemma {:induction false} ValueBound(s: seq<int>, base: nat)
    requires Digits(s, base) && base > 0
    ensures 0 <= Value(s, base) < Pow(base, |s|)
  {
    if s != [] {
      var n := |s| - 1;
      ValueBound(s[..n], base);
      var v, p := Value(s[..n], base), Pow(base, n);
      MulMonotone(v + 1, base, p, base);
      assert (v + 1) * base == v * base + base;
      assert p * base == base * p;
      assert v * base >= 0;
    }
  }

  lemma {:induction false} ValueAppend(s: seq<int>, t: seq<int>, base: nat)
    ensures Value(s + t, base) == Value(s, base) * Pow(base, |t|) + Value(t, base)
  {
    if t == [] {
      assert s + t == s;
    } else {
      var n := |t| - 1;
      ValueAppend(s, t[..n], base);
      assert (s + t)[..|s + t| - 1] == s + t[..n];
      Horner(Value(s, base), Pow(base, n), Value(t[..n], base), base);
    }
  }

  lemma Horner(v: int, p: int, w: int, base: int)
    ensures (v * p + w) * base == v * (base * p) + w * base
  {
    assert (v * p) * base == v * (base * p);
  }

  lemma {:induction false} ZeroValue(s: seq<int>, base: nat)
    requires forall i :: 0 <= i < |s| ==> s[i] == 0
    ensures Value(s, base) == 0
  {
    if s != [] {
      ZeroValue(s[..|s| - 1], base);
    }
  }

  /** The shortest digits of a number. */
  function ToDigits(v: nat, base: nat): (s: seq<int>)
    requires base > 1
    ensures Digits(s, base)
  {
    if v == 0 then []
    else
      Smaller(v, base);
      ToDigits(Div(v, base), base) + [Mod(v, base)]
  }

  lemma Smaller(v: nat, base: nat)
    requires base > 1 && v > 0
    ensures 0 <= Div(v, base) < v && v == Div(v, base) * base + Mod(v, base)
  {
    DivModSplit(v, base);
    hide Div, Mod;
    MulMonotone(2, v / base, base, v / base);
    Commute(v / base, base);
  }

  lemma {:induction false} ToDigitsValue(v: nat, base: nat)
    requires base > 1
    ensures Value(ToDigits(v, base), base) == v
  {
    hide Div, Mod;
    if v > 0 {
      Smaller(v, base);
      ToDigitsValue(Div(v, base), base);
      var s := ToDigits(Div(v, base), base);
      assert (s + [Mod(v, base)])[..|s|] == s;
    }
  }

  /** Digits without leading zeros are the shortest digits of their value. */
  lemma {:induction false} DigitsUnique(s: seq<int>, base: nat)
    requires base > 1 && Digits(s, base) && (s != [] ==> s[0] != 0)
    ensures Value(s, base) >= 0 && ToDigits(Value(s, base), base) == s
    ensures s != [] ==> Value(s, base) > 0
  {
    if s != [] {
      var n := |s| - 1;
      var t := s[..n];
      DigitsUnique(t, base);
      var v := Value(t, base);
      LastDigit(v, s[n], base);
      hide Div, Mod;
      assert s == t + [s[n]];
    }
  }

  lemma LastDigit(v: nat, d: int, base: nat)
    requires base > 1 && 0 <= d < base
    ensures Div(v * base + d, base) == v && Mod(v * base + d, base) == d && v * base + d >= 0
    ensures v > 0 || d > 0 ==> v * base + d > 0
  {
    DivModUnique(v * base + d, base, v, d);
    MulMonotone(0, base, v, base);
    if v > 0 {
      MulPositive(v, base);
    }
  }

  lemma {:induction false} LeadingDigit(v: nat, base: nat)
    requires base > 1 && v > 0
    ensures ToDigits(v, base) != [] && ToDigits(v, base)[0] != 0
  {
    hide Div, Mod;
    Smaller(v, base);
    if Div(v, base) > 0 {
      LeadingDigit(Div(v, base), base);
    }
  }

  // ---------- in place ----------

  /** The number in a buffer takes up its last `length` places, the first of them not zero. */
  ghost predicate Held(s: seq<int>, base: nat, length: nat) {
    && length <= |s| && Digits(s, base)
    && (forall i :: 0 <= i < |s| - length ==> s[i] == 0)
    && (length > 0 ==> s[|s| - length] != 0)
  }

  /** The number is the one in its last places. */
  lemma LowPart(s: seq<int>, base: nat, n: nat)
    requires n <= |s| && forall i :: 0 <= i < |s| - n ==> s[i] == 0
    ensures Value(s, base) == Value(s[|s| - n..], base)
  {
    hide Value, Pow;
    var k := |s| - n;
    ValueAppend(s[..k], s[k..], base);
    ZeroValue(s[..k], base);
    assert s[..k] + s[k..] == s;
  }

  lemma FirstDigit(s: seq<int>, base: nat)
    requires s != []
    ensures Value(s, base) == s[0] * Pow(base, |s| - 1) + Value(s[1..], base)
  {
    ValueAppend([s[0]], s[1..], base);
    assert [s[0]] + s[1..] == s;
    assert Value([s[0]], base) == Value([], base) * base + s[0];
  }

  /** The number has `length` digits just when its size says so. */
  lemma HeldSize(s: seq<int>, base: nat, length: nat)
    requires base > 1 && 0 < length <= |s| && Digits(s, base) && forall i :: 0 <= i < |s| - length ==> s[i] == 0
    ensures s[|s| - length] != 0 <==> Value(s, base) >= Pow(base, length - 1)
  {
    LowPart(s, base, length);
    var t := s[|s| - length..];
    FirstDigit(t, base);
    ValueBound(t[1..], base);
    if t[0] != 0 {
      PowPositive(base, length - 1);
      MulMonotone(1, Pow(base, length - 1), t[0], Pow(base, length - 1));
    }
  }

  lemma ColumnStep(carry: nat, x: nat, mult: nat, base: nat, p: nat, now: int, was: int, add: nat)
    requires base > 0 && carry * p + now == mult * was + add
    ensures var t := carry + mult * x;
      Div(t, base) * (base * p) + (Mod(t, base) * p + now) == mult * (x * p + was) + add
  {
    var t := carry + mult * x;
    DivModSplit(t, base);
    hide Div, Mod;
    var q, r := t / base, t % base;
    assert q * (base * p) == (q * base) * p;
    assert (q * base) * p + r * p == (q * base + r) * p;
    assert (carry + mult * x) * p == carry * p + mult * (x * p);
    assert mult * (x * p + was) == mult * (x * p) + mult * was;
  }

  /** Multiplies the number in a buffer that is large enough, and adds to it, from the last place on. */
  method MultiplyAdd(b: array<int>, base: nat, mult: nat, add: nat, length: nat) returns (next: nat)
    requires base > 1 && mult >= 1 && Held(b[..], base, length)
    requires mult * Value(b[..], base) + add < Pow(base, b.Length)
    modifies b
    ensures Held(b[..], base, next)
    ensures Value(b[..], base) == mult * old(Value(b[..], base)) + add
  {
    hide Value, Pow, Div, Mod;
    ghost var was := b[..];
    ghost var n := b.Length;
    var carry: nat, i := add, 0;
    Start(was, base, mult, add);
    while (carry != 0 || i < length) && i < b.Length
      invariant 0 <= i <= n && b[..n - i] == was[..n - i] && Digits(b[..], base)
      invariant Columns(was, b[..], base, mult, add, carry, i)
      invariant i > length ==> carry != 0 || b[n - i] != 0
    {
      ghost var now := b[..];
      var at := b.Length - 1 - i;
      var t := carry + mult * b[at];
      TopKept(t, base, carry, mult, b[at]);
      b[at] := Mod(t, base);
      NextColumn(was, now, base, mult, add, carry, i);
      assert b[..] == now[at := Mod(t, base)];
      carry := Div(t, base);
      i := i + 1;
    }
    AllColumns(was, b[..], base, mult, add, carry, i, length);
    assert carry == 0;
    next := i;
  }

  /** The columns done so far hold the product up to the carry. */
  ghost predicate Columns(was: seq<int>, now: seq<int>, base: nat, mult: nat, add: nat, carry: nat, i: nat) {
    && |was| == |now| && i <= |was|
    && carry * Pow(base, i) + Value(now[|now| - i..], base) == mult * Value(was[|was| - i..], base) + add
  }

  lemma Start(was: seq<int>, base: nat, mult: nat, add: nat)
    ensures Columns(was, was, base, mult, add, add, 0)
  {
    assert was[|was|..] == [];
    assert add * Pow(base, 0) == add && mult * Value([], base) == 0;
  }

  lemma TopKept(t: nat, base: nat, carry: nat, mult: nat, x: int)
    requires base > 1 && t == carry + mult * x
    ensures x == 0 && carry != 0 ==> Div(t, base) != 0 || Mod(t, base) != 0
  {
    DivModSplit(t, base);
  }

  lemma NextColumn(was: seq<int>, now: seq<int>, base: nat, mult: nat, add: nat, carry: nat, i: nat)
    requires base > 1 && Columns(was, now, base, mult, add, carry, i) && i < |was|
    requires now[|now| - 1 - i] == was[|now| - 1 - i] >= 0
    ensures var at := |now| - 1 - i; var t := carry + mult * was[at];
      t >= 0 && Div(t, base) >= 0 && Columns(was, now[at := Mod(t, base)], base, mult, add, Div(t, base), i + 1)
  {
    hide Value, Div, Mod;
    var at := |now| - 1 - i;
    var t := carry + mult * was[at];
    MulMonotone(0, 0, mult, was[at]);
    var next := now[at := Mod(t, base)];
    FirstDigit(next[at..], base);
    FirstDigit(was[at..], base);
    assert next[at..][1..] == now[at + 1..] && was[at..][1..] == was[at + 1..];
    ColumnStep(carry, was[at], mult, base, Pow(base, i), Value(now[at + 1..], base), Value(was[at + 1..], base), add);
  }

  /** Nothing is carried out of a buffer that is large enough, and no leading zero is left in the number. */
  lemma AllColumns(was: seq<int>, now: seq<int>, base: nat, mult: nat, add: nat, carry: nat, i: nat, length: nat)
    requires base > 1 && mult >= 1 && Held(was, base, length) && Columns(was, now, base, mult, add, carry, i)
    requires Digits(now, base) && now[..|now| - i] == was[..|was| - i]
    requires mult * Value(was, base) + add < Pow(base, |was|)
    requires (carry == 0 && i >= length) || i == |was|
    requires i > length ==> carry != 0 || now[|now| - i] != 0
    ensures carry == 0 && Held(now, base, i) && Value(now, base) == mult * Value(was, base) + add
  {
    hide Value, Pow;
    if carry != 0 {
      assert now[0..] == now && was[0..] == was;
      ValueBound(now, base);
      MulMonotone(1, Pow(base, i), carry, Pow(base, i));
      assert false;
    } else {
      forall k | 0 <= k < |was| - i
        ensures now[k] == 0 && was[k] == 0
      {
        assert now[k] == now[..|now| - i][k] == was[..|was| - i][k];
      }
      LowPart(now, base, i);
      LowPart(was, base, i);
      assert 0 * Pow(base, i) == 0;
      if i == length && i > 0 {
        HeldSize(was, base, i);
        ValueBound(was, base);
        MulMonotone(1, Value(was, base), mult, Value(was, base));
        HeldSize(now, base, i);
      }
    }
  }
}
