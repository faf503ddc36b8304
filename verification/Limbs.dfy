/** Little-endian sequences of 32-bit limbs and the integers they stand for. */
module Limbs {
  import opened Bits

  const BASE := 0x1_0000_0000

  type Limb = x: int | 0 <= x < BASE

  /** The weight of limb `i`. */
  function Place(i: nat): (p: nat)
    ensures p > 0
  {
    Pow2(32 * i)
  }

  lemma PlaceStep(i: nat)
    ensures Place(i + 1) == BASE * Place(i) && Place(0) == 1
  {
    Pow2Add(32, 32 * i);
    Pow2Values();
  }

  lemma PlaceAdd(i: nat, j: nat)
    ensures Place(i + j) == Place(i) * Place(j)
  {
    Pow2Add(32 * i, 32 * j);
  }

  ghost function Value(s: seq<Limb>): nat {
    if s == [] then 0
    else
      MulLe(0, s[|s| - 1], Place(|s| - 1));
      Value(s[..|s| - 1]) + s[|s| - 1] * Place(|s| - 1)
  }

  lemma ValueStep(s: seq<Limb>, i: nat)
    requires i < |s|
    ensures Value(s[..i + 1]) == Value(s[..i]) + s[i] * Place(i)
    ensures Value(s[..0]) == 0
  {
    assert s[..i + 1][..i] == s[..i];
  }

  lemma ValuePush(s: seq<Limb>, x: Limb)
    ensures Value(s + [x]) == Value(s) + x * Place(|s|)
  {
    assert (s + [x])[..|s|] == s;
  }

  lemma {:induction false} ValueBound(s: seq<Limb>)
    ensures Value(s) < Place(|s|)
  {
    if s == [] {
      PlaceStep(0);
    } else {
      var n := |s| - 1;
      ValueBound(s[..n]);
      PlaceStep(n);
      MulLe(s[n], BASE - 1, Place(n));
      assert (BASE - 1) * Place(n) == BASE * Place(n) - Place(n);
    }
  }

  /** Low limbs and the rest. */
  lemma {:induction false} ValueSplit(s: seq<Limb>, k: nat)
    requires k <= |s|
    ensures Value(s) == Value(s[..k]) + Place(k) * Value(s[k..])
  {
    if k == |s| {
      assert s[..k] == s;
    } else {
      hide Place;
      var n := |s| - 1;
      ValueSplit(s[..n], k);
      assert s[..n][..k] == s[..k] && s[..n][k..] == s[k..n];
      ValueStep(s[k..], n - k);
      assert s[k..][..n - k] == s[k..n] && s[k..][..n - k + 1] == s[k..];
      PlaceAdd(k, n - k);
      Spread(Place(k), Value(s[k..n]), s[n], Place(n - k));
    }
  }

  lemma Spread(a: int, b: int, c: int, d: int)
    ensures a * (b + c * d) == a * b + c * (a * d)
  {
    assert a * (c * d) == c * (a * d);
  }

  /** Equal above limb `i`: the values differ as their lower parts do. */
  lemma SameHigh(s: seq<Limb>, t: seq<Limb>, i: nat)
    requires |s| == |t| && i <= |s| && s[i..] == t[i..]
    ensures Value(s) - Value(t) == Value(s[..i]) - Value(t[..i])
  {
    ValueSplit(s, i);
    ValueSplit(t, i);
  }

  /** The top limb decides. */
  lemma TopDecides(s: seq<Limb>, t: seq<Limb>, i: nat)
    requires i < |s| && i < |t| && s[i] < t[i]
    ensures Value(s[..i + 1]) < Value(t[..i + 1])
  {
    ValueStep(s, i);
    ValueStep(t, i);
    ValueBound(s[..i]);
    MulLe(s[i] + 1, t[i], Place(i));
    assert (s[i] + 1) * Place(i) == s[i] * Place(i) + Place(i);
  }

  /** Splitting a column sum into limb and carry loses nothing. */
  lemma Carry(n: nat, i: nat)
    ensures (n % BASE) * Place(i) + (n / BASE) * Place(i + 1) == n * Place(i)
  {
    PlaceStep(i);
    DivModSplit(n, BASE);
    var q, r, p := n / BASE, n % BASE, Place(i);
    assert q * (BASE * p) == (q * BASE) * p;
    assert (q * BASE) * p + r * p == (q * BASE + r) * p;
  }

  /** A value below the modulus that differs from `v` by a multiple of it is the remainder. */
  lemma Remainder(v: nat, r: nat, k: int, m: nat)
    requires m > 0 && r < m && v == r + k * m
    ensures Mod(v, m) == r && Div(v, m) == k
  {
    DivModUnique(v, m, k, r);
  }

  lemma {:induction false} ZeroValue(s: seq<Limb>)
    requires forall i :: 0 <= i < |s| ==> s[i] == 0
    ensures Value(s) == 0
  {
    if s != [] {
      ZeroValue(s[..|s| - 1]);
    }
  }
}
