/** What shifting does to single limbs and to whole sequences of them. */
module LimbShifts {
  import opened Bits
  import opened Limbs

  lemma SplitBase(s: nat)
    requires s <= 32
    ensures Pow2(s) * Pow2(32 - s) == BASE && Pow2(32 - s) * Pow2(s) == BASE
  {
    Pow2Add(s, 32 - s);
    Pow2Values();
  }

  /** The word operators: a 32-bit left shift drops what leaves the word. */
  function Shl32(x: Limb, s: nat): Limb
    requires s < 32
  {
    MulLe(0, x, Pow2(s));
    (x * Pow2(s)) % BASE
  }

  function Shr32(x: Limb, s: nat): (r: Limb)
    requires s < 32
  {
    DivModSplit(x, Pow2(s));
    MulLe(1, Pow2(s), x / Pow2(s));
    x / Pow2(s)
  }

  lemma ShlFacts(x: Limb, s: nat, p: nat, q: nat)
    requires s < 32 && p == Pow2(s) && q > 0 && p > 0 && q * p == BASE
    ensures Shl32(x, s) == Mod(x, q) * p && 0 <= Mod(x, q) * p && Mod(x, q) * p + p <= BASE
    ensures x * p == Div(x, q) * BASE + Mod(x, q) * p && 0 <= Div(x, q) < p
  {
    assert Shl32(x, s) == Mod(x * p, BASE);
    hide Mod, Div, Pow2, Shl32;
    RightUp(x, q, p);
    RightDown(x, q, p);
    SplitLimb(x, q);
    ShlAlgebra(x, Div(x, q), Mod(x, q), p, q);
  }

  lemma ShlAlgebra(x: int, top: int, low: int, p: int, q: int)
    requires x == top * q + low && q * p == BASE
    ensures x * p == top * BASE + low * p
  {
    assert (top * q + low) * p == top * (q * p) + low * p;
  }

  /** A limb shifted left, with the bits that came up from below: no overlap, so or is addition. */
  lemma LeftLimb(x: Limb, hi: nat, s: nat)
    requires s < 32 && hi < Pow2(s)
    ensures 0 <= x * Pow2(s)
    ensures var n := x * Pow2(s) + hi;
            && Or(hi, Shl32(x, s)) == n % BASE
            && (if s == 0 then 0 else Shr32(x, 32 - s)) == n / BASE
            && n / BASE < Pow2(s)
  {
    assert s == 0 ==> Pow2(s) == 1;
    assert s != 0 ==> Shr32(x, 32 - s) == Div(x, Pow2(32 - s));
    hide Pow2, Or, Shl32, Shr32, Mod, Div;
    SplitBase(s);
    var p, q := Pow2(s), Pow2(32 - s);
    ShlFacts(x, s, p, q);
    MulLe(0, x, p);
    RightOr(hi, Mod(x, q), s);
    DivModUnique(x * p + hi, BASE, Div(x, q), Mod(x, q) * p + hi);
  }

  /** The low bits of a limb, pushed to the top of the limb below. */
  lemma RightUp(y: Limb, p: nat, q: nat)
    requires p > 0 && q > 0 && p * q == BASE
    ensures 0 <= y * q && 0 <= Mod(y, p) * q && Mod(y, p) * q + q <= BASE
    ensures Mod(y * q, BASE) == Mod(y, p) * q
  {
    var hi, lo := y / p, y % p;
    DivModSplit(y, p);
    assert (hi * p + lo) * q == hi * (p * q) + lo * q;
    MulLe(lo + 1, p, q);
    assert (lo + 1) * q == lo * q + q;
    MulLe(0, lo, q);
    MulLe(0, y, q);
    DivModUnique(y * q, BASE, hi, lo * q);
  }

  lemma RightDown(x: Limb, p: nat, q: nat)
    requires p > 0 && q > 0 && p * q == BASE
    ensures 0 <= Div(x, p) < q
  {
    var hi := x / p;
    DivModSplit(x, p);
    if hi >= q {
      MulLe(q, hi, p);
    }
  }

  /** A limb shifted right, with the bits that come down from above: no overlap, so or is addition. */
  lemma RightLimb(x: Limb, y: Limb, s: nat)
    requires s <= 32
    ensures 0 <= Div(x, Pow2(s)) && 0 <= y * Pow2(32 - s) && 0 <= Mod(y, Pow2(s)) * Pow2(32 - s)
    ensures 0 <= Mod(y * Pow2(32 - s), BASE)
    ensures Or(Div(x, Pow2(s)), Mod(y * Pow2(32 - s), BASE)) == Div(x, Pow2(s)) + Mod(y, Pow2(s)) * Pow2(32 - s)
    ensures Div(x, Pow2(s)) + Mod(y, Pow2(s)) * Pow2(32 - s) < BASE
  {
    hide Div, Mod, Pow2;
    SplitBase(s);
    RightUp(y, Pow2(s), Pow2(32 - s));
    RightDown(x, Pow2(s), Pow2(32 - s));
    RightOr(Div(x, Pow2(s)), Mod(y, Pow2(s)), 32 - s);
  }

  lemma RightOr(x: nat, y: int, k: nat)
    requires x < Pow2(k) && 0 <= y * Pow2(k)
    ensures Or(x, y * Pow2(k)) == x + y * Pow2(k)
  {
    var p := Pow2(k);
    DivModUnique(y * p, p, y, 0);
    OrDisjoint(x, y * p, k);
  }

  /** One column of a right shift: the limb below gets its top bits, this place the rest. */
  lemma RightColumn(done: seq<Limb>, x: Limb, rest: seq<Limb>, last: int, low: int, p: nat, q: nat)
    requires p > 0 && q > 0 && p * q == BASE && |rest| + 1 == |done|
    requires 0 <= last < BASE && p * Value(rest + [last]) + low == Value(done)
    requires 0 <= last + Mod(x, p) * q < BASE
    ensures 0 <= Div(x, p) < BASE
    ensures p * Value(rest + [last + Mod(x, p) * q] + [Div(x, p)]) + low == Value(done + [x])
  {
    hide Place, Value, Div, Mod;
    var full, top := last + Mod(x, p) * q, Div(x, p);
    RightDown(x, p, q);
    MulLe(1, p, q);
    ValuePush(rest, last);
    ValuePush(rest, full);
    ValuePush(rest + [full], top);
    ValuePush(done, x);
    PlaceStep(|rest|);
    SplitLimb(x, p);
    RightAlgebra(p, q, Value(rest), last, Mod(x, p), top, x, Place(|rest|), Place(|rest| + 1));
  }

  lemma SplitLimb(x: int, p: nat)
    requires p > 0
    ensures x == Div(x, p) * p + Mod(x, p)
  {
  }

  lemma RightAlgebra(p: int, q: int, v: int, last: int, lo: int, top: int, x: int, w: int, w': int)
    requires p * q == BASE && w' == BASE * w && x == top * p + lo
    ensures p * (v + (last + lo * q) * w + top * w') == p * (v + last * w) + x * w'
  {
    assert (last + lo * q) * w == last * w + (lo * q) * w;
    assert p * (v + last * w + (lo * q) * w + top * w') == p * (v + last * w) + p * ((lo * q) * w) + p * (top * w');
    assert p * ((lo * q) * w) == lo * ((p * q) * w);
    assert p * (top * w') == (top * p) * w';
    assert (top * p + lo) * w' == (top * p) * w' + lo * w';
  }

  /** What a right shift by `k` limbs and `b` bits computes. */
  lemma RightTotal(a: seq<Limb>, s: seq<Limb>, k: nat, b: nat)
    requires RightDone(a, s, k, b, |a|)
    ensures Value(s) == Div(Value(a), Pow2(32 * k + b))
  {
    assert a[k..|a|] == a[k..];
    Pow2Add(32 * k, b);
    assert Pow2(32 * k + b) == Place(k) * Pow2(b);
    ValueSplit(s, |a| - k);
    ZeroValue(s[|a| - k..]);
    hide Place, Value, Pow2, Mod, Div;
    ValueSplit(a, k);
    ValueBound(a[..k]);
    ModBound(a[k], Pow2(b));
    RightRemainder(Value(a[..k]), Place(k), Pow2(b), Value(s), Mod(a[k], Pow2(b)), Value(a));
  }

  lemma ModBound(x: int, p: nat)
    requires p > 0
    ensures 0 <= Mod(x, p) < p
  {
  }

  lemma RightRemainder(lo: nat, pk: nat, q: nat, v: nat, r: nat, n: nat)
    requires lo < pk && r < q && n == lo + pk * (q * v + r)
    ensures pk * q > 0 && Div(n, pk * q) == v
  {
    assert pk * (q * v + r) == v * (pk * q) + r * pk;
    MulLe(r + 1, q, pk);
    assert (r + 1) * pk == r * pk + pk;
    MulLe(1, pk, q);
    DivModUnique(n, pk * q, v, lo + r * pk);
  }

  /** One column of a left shift, as a carry step. */
  lemma LeftColumn(a: seq<Limb>, s: seq<Limb>, i: nat, k: nat, p: nat, hi: nat)
    requires i < |a| && i + k < |s|
    requires Value(s[..i + k]) + hi * Place(i + k) == Value(a[..i]) * p * Place(k)
    ensures 0 <= a[i] * p
    ensures var n := a[i] * p + hi;
            Value(s[..i + k] + [n % BASE]) + (n / BASE) * Place(i + k + 1) == Value(a[..i + 1]) * p * Place(k)
  {
    hide Place, Value;
    MulLe(0, a[i], p);
    var n := a[i] * p + hi;
    ValueStep(a, i);
    ValuePush(s[..i + k], n % BASE);
    Carry(n, i + k);
    PlaceAdd(i, k);
    LeftAlgebra(Value(a[..i]), a[i], p, Place(i), Place(k), hi);
  }

  lemma LeftAlgebra(v: int, x: int, p: int, pi: int, pk: int, hi: int)
    ensures (x * p + hi) * (pi * pk) == (v + x * pi) * p * pk - v * p * pk + hi * (pi * pk)
  {
    assert (v + x * pi) * p == v * p + (x * p) * pi;
    assert (v * p + (x * p) * pi) * pk == v * p * pk + (x * p) * (pi * pk);
  }

  /** What a left shift computes once every limb that fits has been written. */
  lemma LeftTotal(a: seq<Limb>, s: seq<Limb>, k: nat, b: nat, hi: nat)
    requires k <= |a| && LeftDone(a, s, k, Pow2(b), |a| - k, hi)
    ensures Value(s) == Mod(Value(a) * Pow2(32 * k + b), Place(|a|))
  {
    var w := |a|;
    assert s[..w] == s;
    Pow2Add(32 * k, b);
    assert Pow2(32 * k + b) == Place(k) * Pow2(b);
    hide Place, Value, Pow2, Mod;
    ValueSplit(a, w - k);
    PlaceAdd(w - k, k);
    ValueBound(s);
    LeftDropped(Value(a[..w - k]), Value(a[w - k..]), Place(w - k), Place(k), Pow2(b));
    Remainder(Value(a) * (Place(k) * Pow2(b)), Value(s), hi + Value(a[w - k..]) * Pow2(b), Place(w));
  }

  lemma LeftDropped(lo: nat, hi: nat, pw: nat, pk: nat, q: nat)
    ensures (lo + pw * hi) * (pk * q) == lo * q * pk + (hi * q) * (pw * pk)
    ensures forall h: int :: (h + hi * q) * (pw * pk) == h * (pw * pk) + (hi * q) * (pw * pk)
    ensures (lo + pw * hi) * (pk * q) >= 0
  {
    assert lo * (pk * q) == lo * q * pk;
    assert (pw * hi) * (pk * q) == (hi * q) * (pw * pk);
    assert (lo + pw * hi) * (pk * q) == lo * (pk * q) + (pw * hi) * (pk * q);
    MulLe(0, lo + pw * hi, pk * q);
  }

  /** The state of a left shift after `j` source limbs: `hi` is what they push into the next place. */
  ghost predicate LeftDone(a: seq<Limb>, s: seq<Limb>, k: nat, p: nat, j: nat, hi: nat) {
    && |s| == |a| && j + k <= |s| && hi < p
    && (forall m :: j + k < m < |s| ==> s[m] == 0)
    && (j + k < |s| ==> s[j + k] == hi)
    && Value(s[..j + k]) + hi * Place(j + k) == Value(a[..j]) * p * Place(k)
  }

  /** What a shifted limb, with the bits from below, pushes out of its place. */
  ghost function LeftOver(x: Limb, hi: int, b: nat): int {
    (x * Pow2(b) + hi) / BASE
  }

  /** What the two writes of a left shift find and leave. */
  lemma LeftFacts(a: seq<Limb>, s: seq<Limb>, k: nat, b: nat, j: nat, hi: nat)
    requires b < 32 && LeftDone(a, s, k, Pow2(b), j, hi) && j + k < |s|
    ensures s[j + k] == hi && 0 <= Or(hi, Shl32(a[j], b)) < BASE
    ensures j + k + 1 < |s| ==> s[j + k + 1] == 0 && (b != 0 ==> Or(0, Shr32(a[j], 32 - b)) == Shr32(a[j], 32 - b))
  {
    LeftLimb(a[j], hi, b);
    if b != 0 {
      OrZero(Shr32(a[j], 32 - b));
    }
  }

  lemma LeftBegin(a: seq<Limb>, s: seq<Limb>, k: nat, p: nat)
    requires |s| == |a| && k <= |s| && p > 0 && forall i :: 0 <= i < |s| ==> s[i] == 0
    ensures LeftDone(a, s, k, p, 0, 0)
  {
    ZeroValue(s[..k]);
    assert 0 * p == 0 && 0 * Place(k) == 0;
  }

  lemma LeftStep(a: seq<Limb>, s: seq<Limb>, s': seq<Limb>, k: nat, b: nat, j: nat, hi: nat)
    requires b < 32 && LeftDone(a, s, k, Pow2(b), j, hi) && j + k < |s| && |s'| == |s|
    requires s'[j + k] as int == Or(hi, Shl32(a[j], b))
    requires j + k + 1 < |s| ==> s'[j + k + 1] == if b == 0 then 0 else Shr32(a[j], 32 - b)
    requires forall m :: 0 <= m < |s| && m != j + k && m != j + k + 1 ==> s'[m] == s[m]
    ensures 0 <= LeftOver(a[j], hi, b) && LeftDone(a, s', k, Pow2(b), j + 1, LeftOver(a[j], hi, b))
  {
    LeftLimb(a[j], hi, b);
    hide Place, Value, Or, Shl32, Shr32;
    LeftColumn(a, s, j, k, Pow2(b), hi);
    assert s'[..j + k + 1] == s[..j + k] + [s'[j + k]];
  }

  /** The state of a right shift after the source limbs up to `i`, with k < i. */
  ghost predicate RightDone(a: seq<Limb>, s: seq<Limb>, k: nat, b: nat, i: nat) {
    && |s| == |a| && k < i <= |a| && b < 32
    && (forall m :: i - k <= m < |s| ==> s[m] == 0)
    && s[i - k - 1] == Shr32(a[i - 1], b)
    && Pow2(b) * Value(s[..i - k]) + Mod(a[k], Pow2(b)) == Value(a[k..i])
  }

  lemma RightFirst(a: seq<Limb>, s: seq<Limb>, k: nat, b: nat)
    requires |s| == |a| && k < |a| && b < 32 && s[0] == Shr32(a[k], b)
    requires forall m :: 1 <= m < |s| ==> s[m] == 0
    ensures RightDone(a, s, k, b, k + 1)
  {
    assert Shr32(a[k], b) == Div(a[k], Pow2(b));
    hide Shr32, Pow2, Value, Place, Div, Mod;
    SplitLimb(a[k], Pow2(b));
    ValuePush([], s[0]);
    ValuePush([], a[k]);
    ValueNil();
    PlaceStep(0);
    assert s[..1] == [] + [s[0]] && a[k..k + 1] == [] + [a[k]];
  }

  lemma ValueNil()
    ensures Value([]) == 0
  {
  }

  /** What the two writes of a right shift find and leave. */
  lemma RightFacts(a: seq<Limb>, s: seq<Limb>, k: nat, b: nat, i: nat)
    requires RightDone(a, s, k, b, i) && i < |a|
    ensures b != 0 ==> 0 <= Or(s[i - k - 1], Shl32(a[i], 32 - b)) < BASE
    ensures s[i - k] == 0
  {
    RightWord(a[i - 1], a[i], b);
  }

  lemma RightWord(x: Limb, y: Limb, b: nat)
    requires b < 32
    ensures 0 <= Shr32(x, b) + Mod(y, Pow2(b)) * Pow2(32 - b) < BASE
    ensures b != 0 ==> Or(Shr32(x, b), Shl32(y, 32 - b)) == Shr32(x, b) + Mod(y, Pow2(b)) * Pow2(32 - b)
    ensures b == 0 ==> Mod(y, Pow2(b)) == 0
    ensures Shr32(x, b) == Div(x, Pow2(b))
  {
    assert b != 0 ==> Shl32(y, 32 - b) == Mod(y * Pow2(32 - b), BASE);
    assert Shr32(x, b) == Div(x, Pow2(b));
    RightLimb(x, y, b);
  }

  lemma RightStep(a: seq<Limb>, s: seq<Limb>, s': seq<Limb>, k: nat, b: nat, i: nat)
    requires RightDone(a, s, k, b, i) && i < |a| && |s'| == |s|
    requires s'[i - k - 1] as int == if b == 0 then s[i - k - 1] else Or(s[i - k - 1], Shl32(a[i], 32 - b))
    requires s'[i - k] == Shr32(a[i], b)
    requires forall m :: 0 <= m < |s| && m != i - k - 1 && m != i - k ==> s'[m] == s[m]
    ensures RightDone(a, s', k, b, i + 1)
  {
    RightWord(a[i - 1], a[i], b);
    RightWord(a[i], a[i], b);
    assert b == 0 ==> 0 * Pow2(32 - b) == 0;
    hide Shr32, Shl32, Pow2, Value, Place, Div, Mod, Or;
    SplitBase(b);
    var rest := s[..i - k - 1];
    assert s[..i - k] == rest + [s[i - k - 1]];
    assert s'[..i - k + 1] == rest + [s'[i - k - 1]] + [s'[i - k]];
    RightColumn(a[k..i], a[i], rest, s[i - k - 1], Mod(a[k], Pow2(b)), Pow2(b), Pow2(32 - b));
    assert a[k..i] + [a[i]] == a[k..i + 1];
  }
}
