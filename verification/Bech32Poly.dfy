/**
 The checksum polynomial of Bech32: remainders modulo the generator, held in 30
 bits, and how they change when symbols change.
 */
module Bech32Poly {

  type Symbols = s: seq<bv8> | forall i :: 0 <= i < |s| ==> s[i] < 32

  function Xor(a: bv32, b: bv32): bv32 { a ^ b }

  function Xor8(a: bv8, b: bv8): bv8 { a ^ b }

  // ---------- one step ----------

  /** The remainder without its leading coefficient, times x. */
  function Low(c: bv32): bv32 { (c & 0x1ffffff) << 5 }

  function Flip(s: bv32, on: bool, k: bv32): bv32 { if on then Xor(s, k) else s }

  function Flips(s: bv32, b1: bool, b2: bool, b4: bool, b8: bool, b16: bool): bv32 {
    Flip(Flip(Flip(Flip(Flip(s, b1, 0x3b6a57b2), b2, 0x26508e6d), b4, 0x1ea119fa), b8, 0x3d4233dd), b16, 0x2a1462b3)
  }

  /** Adds the multiple of x^6 modulo the generator that a leading coefficient stands for. */
  function Fold(s: bv32, c0: bv32): bv32 {
    Flips(s, c0 & 1 != 0, c0 & 2 != 0, c0 & 4 != 0, c0 & 8 != 0, c0 & 16 != 0)
  }

  /** Times x plus the next symbol, modulo the generator. */
  function Step(c: bv32, v: bv8): bv32 {
    Fold(Xor(Low(c), v as bv32), c >> 25)
  }

  lemma FlipOut(s: bv32, r: bv32, on: bool, k: bv32)
    ensures Flip(Xor(s, r), on, k) == Xor(s, Flip(r, on, k))
  {
  }

  lemma XorZero(s: bv32)
    ensures Xor(s, 0) == s && Xor(s, s) == 0
  {
  }

  lemma FlipsOut(s: bv32, b1: bool, b2: bool, b4: bool, b8: bool, b16: bool)
    ensures Flips(s, b1, b2, b4, b8, b16) == Xor(s, Flips(0, b1, b2, b4, b8, b16))
  {
    hide Flip, Xor;
    XorZero(s);
    FlipOut(s, 0, b1, 0x3b6a57b2);
    var k1 := Flip(0, b1, 0x3b6a57b2);
    FlipOut(s, k1, b2, 0x26508e6d);
    var k2 := Flip(k1, b2, 0x26508e6d);
    FlipOut(s, k2, b4, 0x1ea119fa);
    var k4 := Flip(k2, b4, 0x1ea119fa);
    FlipOut(s, k4, b8, 0x3d4233dd);
    var k8 := Flip(k4, b8, 0x3d4233dd);
    FlipOut(s, k8, b16, 0x2a1462b3);
  }

  /** A step is a shift, the symbol, and a part that depends on the leading coefficient alone. */
  lemma StepForm(c: bv32, v: bv8)
    ensures Step(c, v) == Xor(Xor(Low(c), v as bv32), Fold(0, c >> 25))
  {
    hide Xor, Low, Flips;
    var t := c >> 25;
    FlipsOut(Xor(Low(c), v as bv32), t & 1 != 0, t & 2 != 0, t & 4 != 0, t & 8 != 0, t & 16 != 0);
  }

  lemma FoldBound(t: bv32)
    ensures Fold(0, t) < 0x4000_0000
  {
  }

  lemma StepBound(c: bv32, v: bv8)
    requires v < 32
    ensures Step(c, v) < 0x4000_0000
  {
    StepForm(c, v);
    FoldBound(c >> 25);
    hide Fold, Step;
    FitsTogether(Low(c), v as bv32, Fold(0, c >> 25));
  }

  lemma FitsTogether(a: bv32, b: bv32, c: bv32)
    requires a < 0x4000_0000 && b < 32 && c < 0x4000_0000
    ensures Xor(Xor(a, b), c) < 0x4000_0000
  {
  }

  /** The low coefficient of the folded part tells the leading coefficient. */
  lemma FoldInjective(s: bv32, t: bv32)
    requires s < 32 && t < 32 && Fold(0, s) & 31 == Fold(0, t) & 31
    ensures s == t
  {
  }

  lemma LowInjective(c: bv32, d: bv32)
    requires c < 0x4000_0000 && d < 0x4000_0000 && c >> 25 == d >> 25 && Low(c) == Low(d)
    ensures c == d
  {
  }

  lemma Cancel(a: bv32, b: bv32, x: bv32, k: bv32, l: bv32)
    requires Xor(Xor(a, x), k) == Xor(Xor(b, x), l) && a & 31 == 0 && b & 31 == 0
    ensures k & 31 == l & 31 && (k == l ==> a == b)
  {
  }

  /** Different remainders stay different under equal symbols. */
  lemma StepInjective(c: bv32, d: bv32, v: bv8)
    requires c < 0x4000_0000 && d < 0x4000_0000 && Step(c, v) == Step(d, v)
    ensures c == d
  {
    StepForm(c, v);
    StepForm(d, v);
    hide Step, Fold, Xor;
    Cancel(Low(c), Low(d), v as bv32, Fold(0, c >> 25), Fold(0, d >> 25));
    FoldInjective(c >> 25, d >> 25);
    LowInjective(c, d);
  }

  lemma TopSame(c: bv32, e: bv32)
    requires e < 0x200_0000
    ensures Xor(c, e) >> 25 == c >> 25
  {
  }

  lemma LowShift(c: bv32, e: bv32)
    requires e < 0x200_0000
    ensures Low(Xor(c, e)) == Xor(Low(c), e << 5)
  {
  }

  /** A packed difference with one more symbol. */
  function Join(e: bv32, w: bv8): bv32 { Xor(e << 5, w as bv32) }

  lemma XorAssoc(a: bv32, b: bv32, c: bv32)
    ensures Xor(Xor(a, b), c) == Xor(a, Xor(b, c)) && Xor(a, b) == Xor(b, a)
  {
  }

  lemma XorWiden(v: bv8, w: bv8)
    ensures Xor8(v, w) as bv32 == Xor(v as bv32, w as bv32)
  {
  }

  lemma Regroup(l: bv32, e: bv32, v: bv32, w: bv32, k: bv32)
    ensures Xor(Xor(Xor(l, e), Xor(v, w)), k) == Xor(Xor(Xor(l, v), k), Xor(e, w))
  {
    hide Xor;
    XorAssoc(l, e, Xor(v, w));
    XorAssoc(e, v, w);
    XorAssoc(v, e, w);
    XorAssoc(l, v, Xor(e, w));
    XorAssoc(Xor(l, v), Xor(e, w), k);
    XorAssoc(Xor(l, v), k, Xor(e, w));
    XorAssoc(k, Xor(e, w), 0);
  }

  /** A difference below the leading coefficient is shifted, and joined by the difference of the symbols. */
  lemma StepShift(c: bv32, e: bv32, v: bv8, w: bv8)
    requires e < 0x200_0000
    ensures Step(Xor(c, e), Xor8(v, w)) == Xor(Step(c, v), Join(e, w))
  {
    StepForm(Xor(c, e), Xor8(v, w));
    StepForm(c, v);
    TopSame(c, e);
    LowShift(c, e);
    XorWiden(v, w);
    hide Step, Fold, Xor, Low, Xor8;
    Regroup(Low(c), e << 5, v as bv32, w as bv32, Fold(0, c >> 25));
  }

  // ---------- whole inputs ----------

  /** The remainder after more symbols, from a remainder reached. */
  function PolyFrom(c: bv32, v: seq<bv8>): bv32 {
    if v == [] then c else Step(PolyFrom(c, v[..|v| - 1]), v[|v| - 1])
  }

  lemma {:induction false} PolyAppend(c: bv32, a: seq<bv8>, b: seq<bv8>)
    ensures PolyFrom(c, a + b) == PolyFrom(PolyFrom(c, a), b)
  {
    hide Step;
    if b == [] {
      assert a + b == a;
    } else {
      var n := |b| - 1;
      PolyAppend(c, a, b[..n]);
      assert (a + b)[..|a + b| - 1] == a + b[..n];
    }
  }

  lemma {:induction false} PolyBound(c: bv32, v: Symbols)
    requires c < 0x4000_0000
    ensures PolyFrom(c, v) < 0x4000_0000
  {
    if v != [] {
      hide Step;
      StepBound(PolyFrom(c, v[..|v| - 1]), v[|v| - 1]);
    }
  }

  lemma {:induction false} PolyInjective(c: bv32, d: bv32, v: Symbols)
    requires c < 0x4000_0000 && d < 0x4000_0000 && PolyFrom(c, v) == PolyFrom(d, v)
    ensures c == d
  {
    if v != [] {
      hide Step;
      var n := |v| - 1;
      PolyBound(c, v[..n]);
      PolyBound(d, v[..n]);
      StepInjective(PolyFrom(c, v[..n]), PolyFrom(d, v[..n]), v[n]);
      PolyInjective(c, d, v[..n]);
    }
  }

  // ---------- six symbols ----------

  /** Symbols side by side, five bits each. */
  function Pack(d: seq<bv8>): bv32 {
    if d == [] then 0 else Join(Pack(d[..|d| - 1]), d[|d| - 1])
  }

  function Diff(a: seq<bv8>, b: seq<bv8>): (d: seq<bv8>)
    requires |a| == |b|
    ensures |d| == |a|
  {
    seq(|a|, i requires 0 <= i < |a| => Xor8(a[i], b[i]))
  }

  /** 2^(5 n) for up to six symbols. */
  function Room(n: nat): bv32
    requires n <= 6
  {
    if n == 0 then 1 else if n == 1 then 0x20 else if n == 2 then 0x400 else if n == 3 then 0x8000
    else if n == 4 then 0x10_0000 else if n == 5 then 0x200_0000 else 0x4000_0000
  }

  lemma ShiftIn(e: bv32, w: bv8, n: nat)
    requires n <= 5 && e < Room(n) && w < 32
    ensures Join(e, w) < Room(n + 1) && e < 0x200_0000
    ensures Join(e, w) == 0 <==> e == 0 && w == 0
  {
  }

  lemma {:induction false} PackFacts(d: Symbols)
    requires |d| <= 6
    ensures Pack(d) < Room(|d|)
    ensures Pack(d) == 0 <==> forall i :: 0 <= i < |d| ==> d[i] == 0
  {
    if d != [] {
      var n := |d| - 1;
      hide Join, Room;
      PackFacts(d[..n]);
      ShiftIn(Pack(d[..n]), d[n], n);
      if Pack(d) == 0 {
        forall i | 0 <= i < |d|
          ensures d[i] == 0
        {
          assert i < n ==> d[..n][i] == 0;
        }
      }
    } else {
      assert Room(0) == 1;
    }
  }

  lemma XorSymbols(a: bv8, b: bv8)
    requires a < 32 && b < 32
    ensures Xor8(a, b) < 32 && Xor8(b, Xor8(a, b)) == a && (Xor8(a, b) == 0 <==> a == b) && Xor8(a, 0) == a
  {
  }

  lemma DiffSymbols(a: Symbols, b: Symbols)
    requires |a| == |b|
    ensures forall i :: 0 <= i < |a| ==> Diff(a, b)[i] < 32
    ensures (forall i :: 0 <= i < |a| ==> Diff(a, b)[i] == 0) <==> a == b
  {
    hide Xor8;
    forall i | 0 <= i < |a|
      ensures Diff(a, b)[i] < 32 && (Diff(a, b)[i] == 0 <==> a[i] == b[i])
    {
      XorSymbols(a[i], b[i]);
    }
  }

  /** Up to six changed symbols in a row change the remainder by just their differences. */
  lemma {:induction false} SixLinear(c: bv32, a: Symbols, b: Symbols)
    requires |a| == |b| <= 6
    ensures PolyFrom(c, a) == Xor(PolyFrom(c, b), Pack(Diff(a, b)))
  {
    hide Xor, Step, Room, Join, Xor8;
    if a == [] {
      XorZero(c);
    } else {
      var n := |a| - 1;
      var a', b' := a[..n], b[..n];
      SixLinear(c, a', b');
      DiffSymbols(a', b');
      assert Diff(a, b)[..n] == Diff(a', b');
      var e := Pack(Diff(a', b'));
      PackFacts(Diff(a', b'));
      ShiftIn(e, 0, n);
      XorSymbols(a[n], b[n]);
      StepShift(PolyFrom(c, b'), e, b[n], Xor8(a[n], b[n]));
    }
  }

  /**
   Any change confined to six consecutive symbols, and so any single wrong symbol,
   changes the remainder, whatever stands before and after.
   */
  lemma BurstDetected(before: Symbols, a: Symbols, b: Symbols, after: Symbols)
    requires |a| == |b| <= 6 && a != b
    ensures PolyFrom(1, before + a + after) != PolyFrom(1, before + b + after)
  {
    hide Step, Xor, Pack;
    var c := PolyFrom(1, before);
    PolyBound(1, before);
    PolyAppend(1, before + a, after);
    PolyAppend(1, before, a);
    PolyAppend(1, before + b, after);
    PolyAppend(1, before, b);
    SixLinear(c, a, b);
    DiffSymbols(a, b);
    PackFacts(Diff(a, b));
    PolyBound(c, a);
    PolyBound(c, b);
    NotSame(PolyFrom(c, b), Pack(Diff(a, b)));
    if PolyFrom(1, before + a + after) == PolyFrom(1, before + b + after) {
      PolyInjective(PolyFrom(c, a), PolyFrom(c, b), after);
    }
  }

  lemma NotSame(c: bv32, e: bv32)
    ensures Xor(c, e) == c <==> e == 0
  {
  }

  // ---------- the checksum symbols ----------

  function Unpack(m: bv32): (r: Symbols)
    ensures |r| == 6
  {
    [((m >> 25) & 31) as bv8, ((m >> 20) & 31) as bv8, ((m >> 15) & 31) as bv8,
     ((m >> 10) & 31) as bv8, ((m >> 5) & 31) as bv8, (m & 31) as bv8]
  }

  /** The six checksum symbols and their packed form determine each other. */
  lemma UnpackPack(d: Symbols)
    requires |d| == 6
    ensures Unpack(Pack(d)) == d
  {
    PackSix(d);
    hide Pack, Join;
    Split(d[0], d[1], d[2], d[3], d[4], d[5]);
  }

  lemma PackUnpack(m: bv32)
    requires m < 0x4000_0000
    ensures Pack(Unpack(m)) == m
  {
    PackSix(Unpack(m));
    hide Pack, Join;
    Merge(m);
  }

  lemma PackSix(d: Symbols)
    requires |d| == 6
    ensures Pack(d) == Join(Join(Join(Join(Join(Join(0, d[0]), d[1]), d[2]), d[3]), d[4]), d[5])
  {
    hide Join;
    assert d[..1][..0] == [] && Pack(d[..1]) == Join(0, d[0]);
    assert d[..2][..1] == d[..1] && Pack(d[..2]) == Join(Pack(d[..1]), d[1]);
    assert d[..3][..2] == d[..2] && Pack(d[..3]) == Join(Pack(d[..2]), d[2]);
    assert d[..4][..3] == d[..3] && Pack(d[..4]) == Join(Pack(d[..3]), d[3]);
    assert d[..5][..4] == d[..4] && Pack(d[..5]) == Join(Pack(d[..4]), d[4]);
  }

  lemma Split(a: bv8, b: bv8, c: bv8, d: bv8, e: bv8, f: bv8)
    requires a < 32 && b < 32 && c < 32 && d < 32 && e < 32 && f < 32
    ensures Unpack(Join(Join(Join(Join(Join(Join(0, a), b), c), d), e), f)) == [a, b, c, d, e, f]
  {
  }

  lemma Merge(m: bv32)
    requires m < 0x4000_0000
    ensures var d := Unpack(m); Join(Join(Join(Join(Join(Join(0, d[0]), d[1]), d[2]), d[3]), d[4]), d[5]) == m
  {
  }
}
