/**
 The checksum of Bech32 is what its comment says: polynomials over the field of 32 elements, and
 the remainder modulo the generator. A polynomial is the list of its coefficients, highest first.
 */
module Bech32Field {
  import opened Bech32Poly

  // ---------- the field of 32 elements ----------

  /** Times a, where a^5 = a^3 + 1. */
  function TimesA(x: bv8): bv8 {
    if x & 16 != 0 then Xor8((x << 1) & 31, 9) else (x << 1) & 31
  }

  function Part(on: bool, x: bv8): bv8 { if on then x else 0 }

  function Sum5(p: bv8, q: bv8, r: bv8, s: bv8, t: bv8): bv8 { Xor8(p, Xor8(q, Xor8(r, Xor8(s, t)))) }

  /** The product: the sum of a^n times one factor over the bits n of the other. */
  function Mul(c: bv8, x: bv8): bv8 {
    var x1 := TimesA(x);
    var x2 := TimesA(x1);
    var x3 := TimesA(x2);
    Sum5(Part(c & 1 != 0, x), Part(c & 2 != 0, x1), Part(c & 4 != 0, x2), Part(c & 8 != 0, x3),
      Part(c & 16 != 0, TimesA(x3)))
  }

  lemma LinearA(on: bool, x: bv8, y: bv8)
    ensures TimesA(Xor8(x, y)) == Xor8(TimesA(x), TimesA(y)) && TimesA(Part(on, x)) == Part(on, TimesA(x))
    ensures Part(on, Xor8(x, y)) == Xor8(Part(on, x), Part(on, y)) && TimesA(x) < 32
  {
  }

  lemma Xor8Laws(x: bv8, y: bv8, z: bv8)
    ensures Xor8(x, 0) == x && Xor8(0, x) == x && Xor8(x, x) == 0
    ensures Xor8(Xor8(x, y), z) == Xor8(x, Xor8(y, z)) && Xor8(x, y) == Xor8(y, x)
  {
  }

  lemma XorCancel(x: bv8, y: bv8, z: bv8)
    requires Xor8(x, y) == Xor8(x, z)
    ensures y == z
  {
  }

  lemma Exchange(p: bv8, q: bv8, p': bv8, q': bv8)
    ensures Xor8(Xor8(p, p'), Xor8(q, q')) == Xor8(Xor8(p, q), Xor8(p', q'))
  {
    hide Xor8;
    Xor8Laws(p, p', Xor8(q, q'));
    Xor8Laws(p', q, q');
    Xor8Laws(q, p', q');
    Xor8Laws(p, q, Xor8(p', q'));
  }

  lemma AddSums(p: bv8, q: bv8, r: bv8, s: bv8, t: bv8, p': bv8, q': bv8, r': bv8, s': bv8, t': bv8)
    ensures Sum5(Xor8(p, p'), Xor8(q, q'), Xor8(r, r'), Xor8(s, s'), Xor8(t, t'))
      == Xor8(Sum5(p, q, r, s, t), Sum5(p', q', r', s', t'))
  {
    hide Xor8;
    Exchange(s, t, s', t');
    Exchange(r, Xor8(s, t), r', Xor8(s', t'));
    Exchange(q, Xor8(r, Xor8(s, t)), q', Xor8(r', Xor8(s', t')));
    Exchange(p, Xor8(q, Xor8(r, Xor8(s, t))), p', Xor8(q', Xor8(r', Xor8(s', t'))));
  }

  /** It is distributive over the sum. */
  lemma MulDistributes(c: bv8, x: bv8, y: bv8)
    ensures Mul(c, Xor8(x, y)) == Xor8(Mul(c, x), Mul(c, y))
  {
    hide TimesA, Xor8, Part, Sum5;
    var x1, y1 := TimesA(x), TimesA(y);
    var x2, y2 := TimesA(x1), TimesA(y1);
    var x3, y3 := TimesA(x2), TimesA(y2);
    var x4, y4 := TimesA(x3), TimesA(y3);
    LinearA(c & 1 != 0, x, y);
    LinearA(c & 2 != 0, x1, y1);
    LinearA(c & 4 != 0, x2, y2);
    LinearA(c & 8 != 0, x3, y3);
    LinearA(c & 16 != 0, x4, y4);
    AddSums(Part(c & 1 != 0, x), Part(c & 2 != 0, x1), Part(c & 4 != 0, x2), Part(c & 8 != 0, x3),
      Part(c & 16 != 0, x4), Part(c & 1 != 0, y), Part(c & 2 != 0, y1), Part(c & 4 != 0, y2),
      Part(c & 8 != 0, y3), Part(c & 16 != 0, y4));
  }

  lemma MulUnit(x: bv8)
    requires x < 32
    ensures Mul(1, x) == x && Mul(x, 1) == x
  {
  }

  lemma MulZero(x: bv8)
    requires x < 32
    ensures Mul(x, 0) == 0
  {
  }

  lemma Mul2(x: bv8)
    requires x < 32
    ensures Mul(x, 2) == TimesA(x)
  {
  }

  lemma Mul4(x: bv8)
    requires x < 32
    ensures Mul(x, 4) == TimesA(TimesA(x))
  {
  }

  lemma Mul8(x: bv8)
    requires x < 32
    ensures Mul(x, 8) == TimesA(TimesA(TimesA(x)))
  {
  }

  lemma Mul16(x: bv8)
    requires x < 32
    ensures Mul(x, 16) == TimesA(TimesA(TimesA(TimesA(x))))
  {
  }

  lemma BitsOf(c: bv8)
    requires c < 32
    ensures c == Sum5(Part(c & 1 != 0, 1), Part(c & 2 != 0, 2), Part(c & 4 != 0, 4), Part(c & 8 != 0, 8),
      Part(c & 16 != 0, 16))
  {
  }

  lemma MulPart(x: bv8, on: bool, n: bv8)
    requires x < 32
    ensures Mul(x, Part(on, n)) == Part(on, Mul(x, n))
  {
    hide Mul;
    MulZero(x);
  }

  lemma MulSum(x: bv8, p: bv8, q: bv8, r: bv8, s: bv8, t: bv8)
    ensures Mul(x, Sum5(p, q, r, s, t)) == Sum5(Mul(x, p), Mul(x, q), Mul(x, r), Mul(x, s), Mul(x, t))
  {
    hide Mul, Xor8;
    MulDistributes(x, s, t);
    MulDistributes(x, r, Xor8(s, t));
    MulDistributes(x, q, Xor8(r, Xor8(s, t)));
    MulDistributes(x, p, Xor8(q, Xor8(r, Xor8(s, t))));
  }

  /** It is commutative, with unit 1. */
  lemma MulCommutes(c: bv8, x: bv8)
    requires c < 32 && x < 32
    ensures Mul(c, x) == Mul(x, c)
  {
    hide TimesA, Xor8, Part, Sum5;
    var b1, b2, b4, b8, b16 := c & 1 != 0, c & 2 != 0, c & 4 != 0, c & 8 != 0, c & 16 != 0;
    assert Mul(c, x) == Sum5(Part(b1, x), Part(b2, TimesA(x)), Part(b4, TimesA(TimesA(x))),
      Part(b8, TimesA(TimesA(TimesA(x)))), Part(b16, TimesA(TimesA(TimesA(TimesA(x))))));
    hide Mul;
    BitsOf(c);
    MulSum(x, Part(b1, 1), Part(b2, 2), Part(b4, 4), Part(b8, 8), Part(b16, 16));
    MulUnit(x);
    Mul2(x);
    Mul4(x);
    Mul8(x);
    Mul16(x);
    MulPart(x, b1, 1);
    MulPart(x, b2, 2);
    MulPart(x, b4, 4);
    MulPart(x, b8, 8);
    MulPart(x, b16, 16);
  }

  lemma MulBound(c: bv8, x: bv8)
    requires x < 32
    ensures Mul(c, x) < 32
  {
  }

  lemma TimesAThrough(c: bv8, x: bv8)
    ensures Mul(c, TimesA(x)) == TimesA(Mul(c, x))
  {
    hide TimesA, Xor8, Part;
    var x1 := TimesA(x);
    var x2 := TimesA(x1);
    var x3 := TimesA(x2);
    var p, q, r := Part(c & 1 != 0, x), Part(c & 2 != 0, x1), Part(c & 4 != 0, x2);
    var s, t := Part(c & 8 != 0, x3), Part(c & 16 != 0, TimesA(x3));
    LinearA(c & 1 != 0, x, 0);
    LinearA(c & 2 != 0, x1, 0);
    LinearA(c & 4 != 0, x2, 0);
    LinearA(c & 8 != 0, x3, 0);
    LinearA(c & 16 != 0, TimesA(x3), 0);
    LinearA(true, s, t);
    LinearA(true, r, Xor8(s, t));
    LinearA(true, q, Xor8(r, Xor8(s, t)));
    LinearA(true, p, Xor8(q, Xor8(r, Xor8(s, t))));
  }

  /** It is associative. */
  lemma MulAssociates(c: bv8, x: bv8, y: bv8)
    requires c < 32 && x < 32 && y < 32
    ensures Mul(Mul(c, x), y) == Mul(c, Mul(x, y))
  {
    hide Mul;
    MulBound(c, x);
    MulCommutes(Mul(c, x), y);
    MulSwap(y, c, x);
    MulCommutes(x, y);
  }

  lemma MulSwap(c: bv8, x: bv8, y: bv8)
    requires x < 32
    ensures Mul(c, Mul(x, y)) == Mul(x, Mul(c, y))
  {
    hide TimesA, Xor8, Part, Sum5;
    var b1, b2, b4, b8, b16 := c & 1 != 0, c & 2 != 0, c & 4 != 0, c & 8 != 0, c & 16 != 0;
    var y1 := TimesA(y);
    var y2 := TimesA(y1);
    var y3 := TimesA(y2);
    var y4 := TimesA(y3);
    var z := Mul(x, y);
    assert Mul(c, y) == Sum5(Part(b1, y), Part(b2, y1), Part(b4, y2), Part(b8, y3), Part(b16, y4));
    assert Mul(c, z) == Sum5(Part(b1, z), Part(b2, TimesA(z)), Part(b4, TimesA(TimesA(z))),
      Part(b8, TimesA(TimesA(TimesA(z)))), Part(b16, TimesA(TimesA(TimesA(TimesA(z))))));
    hide Mul;
    MulSum(x, Part(b1, y), Part(b2, y1), Part(b4, y2), Part(b8, y3), Part(b16, y4));
    MulPart(x, b1, y);
    MulPart(x, b2, y1);
    MulPart(x, b4, y2);
    MulPart(x, b8, y3);
    MulPart(x, b16, y4);
    TimesAThrough(x, y);
    TimesAThrough(x, y1);
    TimesAThrough(x, y2);
    TimesAThrough(x, y3);
  }

  /** The product of elements other than zero is not zero. */
  lemma NoZeroDivisors(c: bv8, x: bv8)
    requires c < 32 && x < 32
    ensures Mul(c, x) == 0 <==> c == 0 || x == 0
  {
  }

  // ---------- the multiples of the generator ----------

  /** x^6 + {29}x^5 + {22}x^4 + {20}x^3 + {21}x^2 + {29}x + {18}. */
  const GENERATOR: seq<bv8> := [1, 29, 22, 20, 21, 29, 18]

  lemma Fold5(t: bv32)
    requires t < 32
    ensures ((Fold(0, t) >> 25) & 31) as bv8 == Mul(t as bv8, 29)
  {
  }

  lemma Fold4(t: bv32)
    requires t < 32
    ensures ((Fold(0, t) >> 20) & 31) as bv8 == Mul(t as bv8, 22)
  {
  }

  lemma Fold3(t: bv32)
    requires t < 32
    ensures ((Fold(0, t) >> 15) & 31) as bv8 == Mul(t as bv8, 20)
  {
  }

  lemma Fold2(t: bv32)
    requires t < 32
    ensures ((Fold(0, t) >> 10) & 31) as bv8 == Mul(t as bv8, 21)
  {
  }

  lemma Fold1(t: bv32)
    requires t < 32
    ensures ((Fold(0, t) >> 5) & 31) as bv8 == Mul(t as bv8, 29)
  {
  }

  lemma Fold0(t: bv32)
    requires t < 32
    ensures (Fold(0, t) & 31) as bv8 == Mul(t as bv8, 18)
  {
  }

  // ---------- polynomials ----------

  function Scale(c: bv8, p: seq<bv8>): (r: seq<bv8>)
    ensures |r| == |p|
  {
    seq(|p|, i requires 0 <= i < |p| => Mul(c, p[i]))
  }

  /** The sum; the shorter list has the lower coefficients. */
  function Plus(p: seq<bv8>, r: seq<bv8>): (s: seq<bv8>)
    requires |r| <= |p|
    ensures |s| == |p|
  {
    seq(|p|, i requires 0 <= i < |p| => if i < |p| - |r| then p[i] else Xor8(p[i], r[i - (|p| - |r|)]))
  }

  /** The product: (q x + c) p = (q p) x + c p. */
  function Times(q: seq<bv8>, p: seq<bv8>): (r: seq<bv8>)
    requires p != []
    ensures |r| == |q| + |p| - 1
  {
    if q == [] then seq(|p| - 1, _ => 0)
    else Plus(Times(q[..|q| - 1], p) + [0], Scale(q[|q| - 1], p))
  }

  /** A list of six coefficients is the remainder of a polynomial modulo the generator. */
  ghost predicate IsRemainder(p: seq<bv8>, r: seq<bv8>) {
    exists q: Symbols :: Divides(p, q, r)
  }

  predicate Divides(p: seq<bv8>, q: seq<bv8>, r: seq<bv8>) {
    |r| == 6 && |p| == |q| + 6 && p == Plus(Times(q, GENERATOR), r)
  }

  // ---------- one step is a step of the division ----------

  lemma UnpackAt(m: bv32)
    ensures var u := Unpack(m);
      u[0] == ((m >> 25) & 31) as bv8 && u[1] == ((m >> 20) & 31) as bv8 && u[2] == ((m >> 15) & 31) as bv8
      && u[3] == ((m >> 10) & 31) as bv8 && u[4] == ((m >> 5) & 31) as bv8 && u[5] == (m & 31) as bv8
  {
  }

  lemma FoldGroups(t: bv32)
    requires t < 32
    ensures Unpack(Fold(0, t)) == Scale(t as bv8, GENERATOR[1..])
  {
    UnpackAt(Fold(0, t));
    hide Fold, Mul, Unpack;
    Fold5(t);
    Fold4(t);
    Fold3(t);
    Fold2(t);
    Fold1(t);
    Fold0(t);
  }

  lemma XorGroup5(a: bv32, b: bv32)
    ensures ((Xor(a, b) >> 25) & 31) as bv8 == Xor8(((a >> 25) & 31) as bv8, ((b >> 25) & 31) as bv8)
  {
  }

  lemma XorGroup4(a: bv32, b: bv32)
    ensures ((Xor(a, b) >> 20) & 31) as bv8 == Xor8(((a >> 20) & 31) as bv8, ((b >> 20) & 31) as bv8)
  {
  }

  lemma XorGroup3(a: bv32, b: bv32)
    ensures ((Xor(a, b) >> 15) & 31) as bv8 == Xor8(((a >> 15) & 31) as bv8, ((b >> 15) & 31) as bv8)
  {
  }

  lemma XorGroup2(a: bv32, b: bv32)
    ensures ((Xor(a, b) >> 10) & 31) as bv8 == Xor8(((a >> 10) & 31) as bv8, ((b >> 10) & 31) as bv8)
  {
  }

  lemma XorGroup1(a: bv32, b: bv32)
    ensures ((Xor(a, b) >> 5) & 31) as bv8 == Xor8(((a >> 5) & 31) as bv8, ((b >> 5) & 31) as bv8)
  {
  }

  lemma XorGroup0(a: bv32, b: bv32)
    ensures (Xor(a, b) & 31) as bv8 == Xor8((a & 31) as bv8, (b & 31) as bv8)
  {
  }

  lemma UnpackXor(a: bv32, b: bv32)
    ensures Unpack(Xor(a, b)) == Plus(Unpack(a), Unpack(b))
  {
    hide Xor, Xor8;
    XorGroup5(a, b);
    XorGroup4(a, b);
    XorGroup3(a, b);
    XorGroup2(a, b);
    XorGroup1(a, b);
    XorGroup0(a, b);
  }

  lemma UnpackLow(c: bv32, v: bv8)
    requires v < 32
    ensures Unpack(Xor(Low(c), v as bv32)) == Unpack(c)[1..] + [v]
  {
  }

  lemma Leading(c: bv32)
    requires c < 0x4000_0000
    ensures c >> 25 < 32 && (c >> 25) as bv8 == Unpack(c)[0]
  {
  }

  /** Times x plus a symbol, less the multiple of the generator that the leading coefficient calls for. */
  lemma StepDivides(c: bv32, v: bv8)
    requires c < 0x4000_0000 && v < 32
    ensures Unpack(Step(c, v)) == Plus(Unpack(c)[1..] + [v], Scale(Unpack(c)[0], GENERATOR[1..]))
  {
    StepForm(c, v);
    hide Step, Fold, Xor, Low, Unpack, Scale, Plus;
    UnpackXor(Xor(Low(c), v as bv32), Fold(0, c >> 25));
    UnpackLow(c, v);
    Leading(c);
    FoldGroups(c >> 25);
  }

  // ---------- the whole division ----------

  /** Some polynomial behind zeros, so that there is room for a remainder. */
  function WithOne(v: seq<bv8>): seq<bv8> { [0, 0, 0, 0, 0, 1] + v }

  lemma PlusAt(p: seq<bv8>, r: seq<bv8>, i: nat)
    requires |r| <= |p| && i < |p|
    ensures Plus(p, r)[i] == if i < |p| - |r| then p[i] else Xor8(p[i], r[i - (|p| - |r|)])
  {
  }

  lemma PlusAssociates(p: seq<bv8>, q: seq<bv8>, r: seq<bv8>)
    requires |r| <= |q| <= |p|
    ensures Plus(Plus(p, q), r) == Plus(p, Plus(q, r))
  {
    hide Xor8;
    forall i | 0 <= i < |p|
      ensures Plus(Plus(p, q), r)[i] == Plus(p, Plus(q, r))[i]
    {
      if i >= |p| - |r| {
        Xor8Laws(p[i], q[i - (|p| - |q|)], r[i - (|p| - |r|)]);
      }
    }
  }

  /** One more symbol behind a sum. */
  lemma PlusShift(p: seq<bv8>, r: seq<bv8>, v: bv8)
    requires |r| <= |p|
    ensures Plus(p, r) + [v] == Plus(p + [0], r + [v])
  {
    hide Xor8;
    Xor8Laws(v, 0, 0);
    forall i | 0 <= i < |p| + 1
      ensures (Plus(p, r) + [v])[i] == Plus(p + [0], r + [v])[i]
    {
    }
  }

  /** A remainder times x plus a symbol is a multiple of the generator plus the next remainder. */
  lemma NextRemainder(r: seq<bv8>, v: bv8)
    requires |r| == 6 && r[0] < 32
    ensures r + [v] == Plus(Scale(r[0], GENERATOR), Plus(r[1..] + [v], Scale(r[0], GENERATOR[1..])))
  {
    hide Xor8, Mul;
    MulUnit(r[0]);
    var m, next := Scale(r[0], GENERATOR), Plus(r[1..] + [v], Scale(r[0], GENERATOR[1..]));
    forall i | 0 <= i < 7
      ensures (r + [v])[i] == Plus(m, next)[i]
    {
      if i > 0 {
        assert m[i] == Mul(r[0], GENERATOR[i]) == Scale(r[0], GENERATOR[1..])[i - 1];
        Xor8Laws((r + [v])[i], m[i], m[i]);
        Xor8Laws(m[i], (r + [v])[i], m[i]);
      }
    }
  }

  lemma DivideOn(p: seq<bv8>, q: seq<bv8>, r: seq<bv8>, v: bv8)
    requires Divides(p, q, r) && r[0] < 32
    ensures Divides(p + [v], q + [r[0]], Plus(r[1..] + [v], Scale(r[0], GENERATOR[1..])))
  {
    var t, m := Times(q, GENERATOR), Scale(r[0], GENERATOR);
    var next := Plus(r[1..] + [v], Scale(r[0], GENERATOR[1..]));
    assert (q + [r[0]])[..|q|] == q && Times(q + [r[0]], GENERATOR) == Plus(t + [0], m);
    hide Times, Plus, Scale;
    PlusShift(t, r, v);
    NextRemainder(r, v);
    PlusAssociates(t + [0], m, next);
  }

  /** What is left by the checksum loop is a remainder. */
  lemma {:induction false} PolyDivides(v: Symbols) returns (q: Symbols)
    ensures Divides(WithOne(v), q, Unpack(PolyFrom(1, v)))
  {
    hide Step, Unpack, Divides, Plus, Scale, Mul;
    if v == [] {
      q := [];
      NoMultiple();
    } else {
      var n := |v| - 1;
      var before := PolyDivides(v[..n]);
      var c := PolyFrom(1, v[..n]);
      PolyBound(1, v[..n]);
      assert WithOne(v) == WithOne(v[..n]) + [v[n]];
      DivideOn(WithOne(v[..n]), before, Unpack(c), v[n]);
      StepDivides(c, v[n]);
      q := before + [Unpack(c)[0]];
    }
  }

  lemma NoMultiple()
    ensures Divides(WithOne([]), [], Unpack(1))
  {
    assert Unpack(1) == [0, 0, 0, 0, 0, 1];
    Xor8Laws(0, 0, 0);
    Xor8Laws(1, 0, 0);
  }

  // ---------- there is one remainder only ----------

  lemma {:induction false} TimesAt(q: Symbols, i: nat)
    requires i < |q|
    ensures Times(q, GENERATOR)[i] == Xor8(Times(q[..i], GENERATOR)[i], q[i])
  {
    hide Mul, Xor8;
    var n := |q| - 1;
    MulUnit(q[n]);
    if i < n {
      TimesAt(q[..n], i);
      assert q[..n][..i] == q[..i];
    }
  }

  lemma DividesAt(p: seq<bv8>, q: seq<bv8>, r: seq<bv8>, i: nat)
    requires Divides(p, q, r) && i < |p|
    ensures |p| == |q| + 6 && |r| == 6
    ensures p[i] == if i < |q| then Times(q, GENERATOR)[i] else Xor8(Times(q, GENERATOR)[i], r[i - |q|])
  {
    PlusAt(Times(q, GENERATOR), r, i);
  }

  lemma OneMore(s: seq<bv8>, t: seq<bv8>, n: nat)
    requires n < |s| == |t| && s[..n] == t[..n] && s[n] == t[n]
    ensures s[..n + 1] == t[..n + 1]
  {
    assert s[..n + 1] == s[..n] + [s[n]] && t[..n + 1] == t[..n] + [t[n]];
  }

  lemma {:induction false} SameQuotient(p: seq<bv8>, q: Symbols, r: seq<bv8>, q': Symbols, r': seq<bv8>, i: nat)
    requires Divides(p, q, r) && Divides(p, q', r') && i <= |q| == |q'|
    ensures q[..i] == q'[..i]
  {
    if i > 0 {
      var n := i - 1;
      DividesAt(p, q, r, n);
      DividesAt(p, q', r', n);
      hide Times, Xor8, Divides, Plus;
      SameQuotient(p, q, r, q', r', n);
      TimesAt(q, n);
      TimesAt(q', n);
      XorCancel(Times(q[..n], GENERATOR)[n], q[n], q'[n]);
      OneMore(q, q', n);
    }
  }

  lemma OneRemainder(p: seq<bv8>, q: Symbols, r: seq<bv8>, q': Symbols, r': seq<bv8>)
    requires Divides(p, q, r) && Divides(p, q', r')
    ensures r == r'
  {
    assert |q| == |q'| && |r| == |r'| == 6 && |p| == |q| + 6;
    hide Times, Xor8, Divides, Plus;
    SameQuotient(p, q, r, q', r', |q|);
    assert q[..|q|] == q && q'[..|q|] == q';
    forall i | 0 <= i < 6
      ensures r[i] == r'[i]
    {
      DividesAt(p, q, r, |q| + i);
      DividesAt(p, q, r', |q| + i);
      XorCancel(Times(q, GENERATOR)[|q| + i], r[i], r'[i]);
    }
  }

  /**
   The checksum loop computes the remainder modulo the generator of the polynomial with
   coefficients 1 and the symbols, and nothing else is one.
   */
  lemma ChecksumIsRemainder(v: Symbols, r: seq<bv8>)
    ensures IsRemainder(WithOne(v), r) <==> r == Unpack(PolyFrom(1, v))
  {
    hide Divides, PolyFrom, Unpack;
    var q := PolyDivides(v);
    if IsRemainder(WithOne(v), r) {
      var q': Symbols :| Divides(WithOne(v), q', r);
      OneRemainder(WithOne(v), q, Unpack(PolyFrom(1, v)), q', r);
    }
  }

  method PolyMod(v: seq<bv8>) returns (c: bv32)
    ensures c == PolyFrom(1, v)
    ensures (forall i :: 0 <= i < |v| ==> v[i] < 32) ==> c < 0x4000_0000 && IsRemainder(WithOne(v), Unpack(c))
  {
    hide Step, IsRemainder, Unpack;
    c := 1;
    assert v[..0] == [];
    for i := 0 to |v|
      invariant c == PolyFrom(1, v[..i])
    {
      assert v[..i + 1][..i] == v[..i];
      c := Step(c, v[i]);
    }
    assert v[..|v|] == v;
    if forall i :: 0 <= i < |v| ==> v[i] < 32 {
      PolyBound(1, v);
      ChecksumIsRemainder(v, Unpack(c));
    }
  }
}
