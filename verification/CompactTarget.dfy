/**
 The compact form of 256-bit targets, a floating-point-like 32-bit word, and the
 proof of work that a target stands for.
 */
module CompactTarget {
  import opened Bits
  import opened Limbs
  import opened ArithUint

  const WIDTH: nat := 8

  /** 256^n. */
  function Bytes(n: nat): (p: nat)
    ensures p > 0
  {
    Pow2(8 * n)
  }

  lemma BytesStep(n: nat)
    ensures Bytes(n + 1) == 256 * Bytes(n) && Bytes(0) == 1
  {
    Pow2Add(8, 8 * n);
    Pow2Values();
  }

  lemma BytesAdd(a: nat, b: nat)
    ensures Bytes(a + b) == Bytes(a) * Bytes(b)
  {
    Pow2Add(8 * a, 8 * b);
  }

  lemma SmallBytes()
    ensures Bytes(0) == 1 && Bytes(1) == 0x100 && Bytes(2) == 0x1_0000 && Bytes(3) == 0x100_0000
    ensures Bytes(32) == Place(WIDTH)
  {
    Pow2Values();
  }

  /** How many bytes a value needs. */
  function ByteLen(v: nat): nat {
    if v == 0 then 0 else 1 + ByteLen(v / 256)
  }

  lemma {:induction false} ByteLenBounds(v: nat)
    ensures v < Bytes(ByteLen(v))
    ensures v > 0 ==> ByteLen(v) > 0 && Bytes(ByteLen(v) - 1) <= v
    ensures v == 0 ==> ByteLen(v) == 0
  {
    BytesStep(0);
    if v > 0 {
      ByteLenBounds(v / 256);
      BytesStep(ByteLen(v / 256));
      if v / 256 > 0 {
        BytesStep(ByteLen(v / 256) - 1);
      }
    }
  }

  lemma BytesMonotone(a: nat, b: nat)
    requires a <= b
    ensures Bytes(a) <= Bytes(b)
  {
    Pow2Monotone(8 * a, 8 * b);
  }

  lemma ByteLenUnique(v: nat, n: nat)
    requires v < Bytes(n) && (n > 0 ==> Bytes(n - 1) <= v)
    ensures n == ByteLen(v)
  {
    hide Bytes;
    ByteLenBounds(v);
    var k := ByteLen(v);
    if n < k {
      BytesMonotone(n, k - 1);
    } else if k < n {
      BytesMonotone(k, n - 1);
    }
  }

  /** Rounding the bit length up to bytes. */
  lemma BitsToBytes(v: nat, n: nat)
    requires v < Pow2(n) && (n > 0 ==> Pow2(n - 1) <= v)
    ensures (n + 7) / 8 == ByteLen(v)
  {
    var k := (n + 7) / 8;
    Pow2Monotone(n, 8 * k);
    if n > 0 {
      Pow2Monotone(8 * (k - 1), n - 1);
    }
    ByteLenUnique(v, k);
  }

  // ---------- decoding ----------

  datatype Decoded = Decoded(value: nat, negative: bool, overflow: bool)

  type Word32 = x: int | 0 <= x < 0x1_0000_0000

  function SizeOf(c: Word32): nat { c / 0x100_0000 }

  /** The mantissa after the small-exponent shift. */
  function WordOf(c: Word32): nat {
    var word := c % 0x80_0000;
    if SizeOf(c) <= 3 then Div(word, Bytes(3 - SizeOf(c))) else word
  }

  predicate SignOf(c: Word32) { (c / 0x80_0000) % 2 == 1 }

  function Decode(c: Word32): Decoded {
    var size, word := SizeOf(c), WordOf(c);
    Decoded(
      if size <= 3 then word else Mod(word * Bytes(size - 3), Place(WIDTH)),
      word != 0 && SignOf(c),
      word != 0 && (size > 34 || (word > 0xff && size > 33) || (word > 0xffff && size > 32)))
  }

  lemma WordBound(c: Word32)
    ensures WordOf(c) < 0x80_0000 && SizeOf(c) < 256
  {
    hide Bytes, Div;
  }

  /** The overflow flag is exact: it is set just when the 256 bits cannot hold the number meant. */
  lemma OverflowExact(c: Word32)
    ensures SizeOf(c) <= 3 ==> !Decode(c).overflow
    ensures SizeOf(c) > 3 ==> (Decode(c).overflow <==> WordOf(c) * Bytes(SizeOf(c) - 3) >= Place(WIDTH))
  {
    WordBound(c);
    if SizeOf(c) > 3 {
      hide Bytes, WordOf, Place;
      OverflowAt(WordOf(c), SizeOf(c) - 3);
    }
  }

  lemma OverflowAt(word: nat, k: nat)
    requires word < 0x80_0000
    ensures word * Bytes(k) >= Place(WIDTH) <==>
      word != 0 && (k > 31 || (word > 0xff && k > 30) || (word > 0xffff && k > 29))
  {
    SmallBytes();
    hide Bytes;
    if k >= 32 {
      BytesMonotone(32, k);
      MulLe(1, if word == 0 then 1 else word, Bytes(k));
    } else if 29 <= k {
      BytesAdd(32 - k, k);
      Threshold(word, Bytes(32 - k), Bytes(k));
    } else {
      BytesMonotone(3, 32 - k);
      BytesAdd(32 - k, k);
      Threshold(word, Bytes(32 - k), Bytes(k));
    }
  }

  lemma Threshold(w: nat, a: nat, p: nat)
    requires p > 0
    ensures w * p >= a * p <==> w >= a
  {
    if w >= a {
      MulLe(a, w, p);
    } else {
      MulLe(w + 1, a, p);
      Distribute3(w, 1, 0, p);
    }
  }

  /** Without overflow a decoded value is the number meant, and a byte short of the top at least. */
  lemma NoOverflow(c: Word32)
    requires !Decode(c).overflow
    ensures Decode(c).value == if SizeOf(c) <= 3 then WordOf(c) else WordOf(c) * Bytes(SizeOf(c) - 3)
    ensures Decode(c).value + 1 < Place(WIDTH)
  {
    var size, word := SizeOf(c), WordOf(c);
    OverflowExact(c);
    WordBound(c);
    SmallBytes();
    hide Bytes, Place, Mod, Div, WordOf;
    if size <= 3 {
      BytesMonotone(3, 32);
    } else {
      var v := word * Bytes(size - 3);
      MulLe(0, word, Bytes(size - 3));
      ModSmall(v, Place(WIDTH));
      BytesAdd(1, size - 4);
      BytesAdd(1, 31);
      EvenGap(word, Bytes(size - 4), Bytes(31));
    }
  }

  lemma ModSmall(v: int, m: int)
    requires 0 <= v && 0 < m
    ensures v < m ==> Mod(v, m) == v
  {
    if v < m {
      DivModUnique(v, m, 0, v);
    }
  }

  lemma EvenGap(w: nat, a: nat, b: nat)
    requires w * (0x100 * a) < 0x100 * b
    ensures w * (0x100 * a) + 1 < 0x100 * b
  {
    assert w * (0x100 * a) == 0x100 * (w * a);
  }

  // ---------- encoding ----------

  /** Mantissa and exponent before and after the sign bit is kept free. */
  function Mantissa(v: nat): nat {
    var n := ByteLen(v);
    if n <= 3 then v * Bytes(3 - n) else Div(v, Bytes(n - 3))
  }

  predicate Crowded(v: nat) { Mantissa(v) >= 0x80_0000 }

  function Size(v: nat): nat { ByteLen(v) + if Crowded(v) then 1 else 0 }

  function Word(v: nat): nat { if Crowded(v) then Mantissa(v) / 0x100 else Mantissa(v) }

  function Encode(v: nat, fNegative: bool): nat {
    Word(v) + Size(v) * 0x100_0000 + if fNegative && Word(v) != 0 then 0x80_0000 else 0
  }

  lemma MantissaBound(v: nat)
    ensures Mantissa(v) < 0x100_0000
    ensures v > 0 ==> Mantissa(v) >= 0x1_0000
  {
    var n := ByteLen(v);
    ByteLenBounds(v);
    SmallBytes();
    hide Bytes, Div, ByteLen;
    if n <= 3 {
      BytesAdd(n, 3 - n);
      MulLe(v + 1, Bytes(n), Bytes(3 - n));
      Distribute3(v, 1, 0, Bytes(3 - n));
      if v > 0 {
        BytesAdd(n - 1, 3 - n);
        MulLe(Bytes(n - 1), v, Bytes(3 - n));
      }
    } else {
      BytesAdd(3, n - 3);
      BytesAdd(2, n - 3);
      QuotientBounds(v, Bytes(n - 3), 0x1_0000, 0x100_0000);
    }
  }

  lemma QuotientBounds(v: nat, p: nat, lo: nat, hi: nat)
    requires p > 0 && lo * p <= v < hi * p
    ensures lo <= Div(v, p) < hi
  {
    var q := v / p;
    DivModSplit(v, p);
    if q < lo {
      MulLe(q + 1, lo, p);
      Distribute3(q, 1, 0, p);
    }
    if q >= hi {
      MulLe(hi, q, p);
    }
  }

  lemma SizeBound(v: nat)
    requires v < Place(WIDTH)
    ensures ByteLen(v) <= 32 && Size(v) <= 33
  {
    ByteLenBounds(v);
    SmallBytes();
    hide Bytes, ByteLen;
    if ByteLen(v) > 32 {
      BytesMonotone(32, ByteLen(v) - 1);
    }
  }

  lemma EncodeFields(v: nat, fNegative: bool)
    requires v < Place(WIDTH)
    ensures Encode(v, fNegative) < 0x1_0000_0000
    ensures SizeOf(Encode(v, fNegative)) == Size(v) && Encode(v, fNegative) % 0x80_0000 == Word(v)
    ensures SignOf(Encode(v, fNegative)) <==> fNegative && v != 0
    ensures v == 0 ==> Size(v) == 0 && Word(v) == 0
    ensures v > 0 ==> 0x8000 <= Word(v) < 0x80_0000
  {
    WordRange(v);
    SizeBound(v);
    hide Size, Word, SizeOf, SignOf;
    PackFields(Size(v), Word(v), fNegative && v != 0, Encode(v, fNegative));
  }

  lemma WordRange(v: nat)
    ensures v == 0 ==> Size(v) == 0 && Word(v) == 0
    ensures v > 0 ==> 0x8000 <= Word(v) < 0x80_0000
  {
    MantissaBound(v);
    ByteLenBounds(v);
    hide ByteLen;
    if v == 0 {
      assert Mantissa(v) == 0 * Bytes(3);
    }
    hide Mantissa;
  }

  lemma PackFields(size: nat, word: nat, sign: bool, c: nat)
    requires size < 256 && word < 0x80_0000
    requires c == word + size * 0x100_0000 + if sign then 0x80_0000 else 0
    ensures c < 0x1_0000_0000 && SizeOf(c) == size && c % 0x80_0000 == word && (SignOf(c) <==> sign)
  {
  }

  /** How many low bytes the compact form cannot keep. */
  function Lost(v: nat): nat { if Size(v) <= 3 then 0 else Size(v) - 3 }

  /** A value with its lost bytes replaced by zeros. */
  function Kept(v: nat): nat { Div(v, Bytes(Lost(v))) * Bytes(Lost(v)) }

  /** The stored word, crowded or not, is the value shifted by its stored size. */
  lemma WordShape(v: nat)
    ensures Word(v) == if Size(v) <= 3 then v * Bytes(3 - Size(v)) else Div(v, Bytes(Size(v) - 3))
  {
    var n := ByteLen(v);
    hide Bytes, Div, ByteLen;
    if Crowded(v) {
      if n <= 2 {
        BytesStep(2 - n);
        Eighth(v, Bytes(2 - n));
      } else if n == 3 {
        SmallBytes();
        DivByOne(v);
      } else {
        BytesAdd(n - 3, 1);
        SmallBytes();
        DivTwice(v, Bytes(n - 3));
      }
    }
  }

  lemma Eighth(v: nat, p: nat)
    ensures v * (0x100 * p) / 0x100 == v * p
  {
    assert v * (0x100 * p) == 0x100 * (v * p);
  }

  lemma DivByOne(v: nat)
    ensures v * 1 == v && v / 0x100 == Div(v, 0x100)
  {
  }

  lemma DivTwice(v: nat, p: nat)
    requires p > 0
    ensures Div(v, p) / 0x100 == Div(v, p * 0x100)
  {
    DivDiv(v, p, 0x100);
  }

  /** What is kept is the largest multiple of the lost unit that is no larger than the value. */
  lemma KeptBounds(v: nat)
    ensures Kept(v) <= v < Kept(v) + Bytes(Lost(v))
    ensures Size(v) <= 3 ==> Kept(v) == v
  {
    hide Size, Bytes;
    DivModSplit(v, Bytes(Lost(v)));
    if Size(v) <= 3 {
      SmallBytes();
    }
  }

  /** Decoding an encoded value gives back its sign and all but the lost low bytes, and never overflows. */
  lemma RoundTrip(v: nat, fNegative: bool)
    requires v < Place(WIDTH)
    ensures Encode(v, fNegative) < 0x1_0000_0000
    ensures Decode(Encode(v, fNegative)) == Decoded(Kept(v), fNegative && v != 0, false)
  {
    EncodeFields(v, fNegative);
    var c := Encode(v, fNegative);
    WordShape(v);
    KeptBounds(v);
    OverflowExact(c);
    hide Encode, Size, Word, Bytes, Place, Div, Mod, SignOf, SizeOf;
    if Size(v) <= 3 {
      ExactBack(v, Bytes(3 - Size(v)));
    } else {
      ModSmall(Kept(v), Place(WIDTH));
      if v == 0 {
        assert false;
      }
    }
  }

  lemma ExactBack(v: nat, p: nat)
    requires p > 0
    ensures Div(v * p, p) == v
  {
    DivModUnique(v * p, p, v, 0);
  }

  /** The words that encoding can produce: no shorter size would do, and nothing is lost in the mantissa. */
  predicate Canonical(c: Word32) {
    c == 0 || (c % 0x80_0000 >= 0x8000 && (SizeOf(c) <= 3 ==> Mod(c % 0x80_0000, Bytes(3 - SizeOf(c))) == 0))
  }

  /** Encoding a decoded word gives the word back if and only if it is canonical. */
  lemma WordRoundTrip(c: Word32)
    requires !Decode(c).overflow
    ensures Encode(Decode(c).value, Decode(c).negative) == c <==> Canonical(c)
  {
    var d := Decode(c);
    NoOverflow(c);
    EncodeFields(d.value, d.negative);
    hide Encode, Decode, Size, Word, Bytes, Place, Div, Mod, SignOf, SizeOf;
    if Encode(d.value, d.negative) == c {
      CanonicalOnly(d.value, c);
    }
    if Canonical(c) {
      CanonicalBack(c);
    }
  }

  /** Encoding what is kept of a value gives the value's own word: a second round trip changes nothing. */
  lemma KeptSameWord(v: nat, fNegative: bool)
    requires v < Place(WIDTH)
    ensures Kept(v) < Place(WIDTH) && Encode(Kept(v), fNegative && v != 0) == Encode(v, fNegative)
  {
    RoundTrip(v, fNegative);
    KeptBounds(v);
    EncodeFields(v, fNegative);
    hide Encode, Decode, Size, Word, Bytes, Place, Div, Mod, SignOf, SizeOf, Canonical;
    var c := Encode(v, fNegative);
    CanonicalOnly(v, c);
    WordRoundTrip(c);
  }

  lemma CanonicalOnly(v: nat, c: Word32)
    requires SizeOf(c) == Size(v) && c % 0x80_0000 == Word(v)
    requires v == 0 ==> !SignOf(c) && Size(v) == 0 && Word(v) == 0
    requires v > 0 ==> 0x8000 <= Word(v)
    ensures Canonical(c)
  {
    WordShape(v);
    hide Size, Word, Bytes, Div, Mod;
    if v > 0 && Size(v) <= 3 {
      ExactMod(v, Bytes(3 - Size(v)));
    }
  }

  lemma ExactMod(v: nat, p: nat)
    requires p > 0
    ensures Mod(v * p, p) == 0
  {
    DivModUnique(v * p, p, v, 0);
  }

  lemma CanonicalBack(c: Word32)
    requires Canonical(c) && !Decode(c).overflow
    ensures Encode(Decode(c).value, Decode(c).negative) == c
  {
    var d := Decode(c);
    var s, w := SizeOf(c), c % 0x80_0000;
    NoOverflow(c);
    if c == 0 {
      WordRange(0);
    } else {
      hide Encode, Bytes, Place, Div, Mod, Size, Word;
      if s <= 3 {
        DivBack(w, Bytes(3 - s));
      }
      Stored(d.value, s, w);
      Reassemble(c);
      EncodeParts(d.value, d.negative);
    }
  }

  lemma EncodeParts(v: nat, fNegative: bool)
    ensures Encode(v, fNegative) == Word(v) + Size(v) * 0x100_0000 + if fNegative && Word(v) != 0 then 0x80_0000 else 0
  {
  }

  lemma DivBack(w: nat, p: nat)
    requires p > 0
    ensures Mod(w, p) == 0 ==> Div(w, p) * p == w
  {
    DivModSplit(w, p);
  }

  lemma Reassemble(c: Word32)
    ensures c == c % 0x80_0000 + SizeOf(c) * 0x100_0000 + if SignOf(c) then 0x80_0000 else 0
  {
  }

  /** A value given by a mantissa in range and a size is stored as just that mantissa and size. */
  lemma Stored(v: nat, s: nat, w: nat)
    requires 0x8000 <= w < 0x80_0000
    requires if s <= 3 then v * Bytes(3 - s) == w else v == w * Bytes(s - 3)
    ensures Size(v) == s && Word(v) == w
  {
    SmallBytes();
    hide Bytes, Div, ByteLen;
    StoredSize(v, s, w);
    if s <= 3 {
      if w < 0x1_0000 {
        BytesStep(3 - s);
        TimesByte(v, Bytes(3 - s));
      }
    } else if w >= 0x1_0000 {
      ExactBack(w, Bytes(s - 3));
    } else if s > 4 {
      BytesStep(s - 4);
      TimesByte(w, Bytes(s - 4));
      ExactBack(0x100 * w, Bytes(s - 4));
    }
  }

  lemma TimesByte(v: nat, p: nat)
    ensures v * (0x100 * p) == 0x100 * (v * p) == (0x100 * v) * p
  {
  }

  lemma StoredSize(v: nat, s: nat, w: nat)
    requires 0x8000 <= w < 0x80_0000
    requires if s <= 3 then v * Bytes(3 - s) == w else v == w * Bytes(s - 3)
    ensures ByteLen(v) == if w < 0x1_0000 then s - 1 else s
  {
    SmallBytes();
    hide Bytes, ByteLen;
    var n := if w < 0x1_0000 then s - 1 else s;
    if s == 0 {
      Threshold(v, 1, Bytes(3));
      assert false;
    } else if s <= 3 {
      BytesAdd(s, 3 - s);
      BytesAdd(s - 1, 3 - s);
      Threshold(v, Bytes(s), Bytes(3 - s));
      Threshold(v, Bytes(s - 1), Bytes(3 - s));
      if n < s {
        if s == 1 {
          assert false;
        } else {
          BytesAdd(s - 2, 3 - s);
          Threshold(v, Bytes(s - 2), Bytes(3 - s));
        }
      }
    } else {
      BytesAdd(3, s - 3);
      BytesAdd(2, s - 3);
      BytesAdd(1, s - 3);
      Threshold(w, Bytes(3), Bytes(s - 3));
      Threshold(w, Bytes(2), Bytes(s - 3));
      Threshold(w, Bytes(1), Bytes(s - 3));
    }
    ByteLenUnique(v, n);
  }

  // ---------- known words ----------

  /** Words of the program's own examples, of every kind of size. */
  lemma KnownWords()
    ensures Decode(0x0112_3456) == Decoded(0x12, false, false) && Decode(0x0212_3456) == Decoded(0x1234, false, false)
    ensures Decode(0x0312_3456) == Decoded(0x12_3456, false, false)
    ensures Decode(0x0412_3456) == Decoded(0x1234_5600, false, false)
    ensures Decode(0x0492_3456) == Decoded(0x1234_5600, true, false)
    ensures Decode(0x0500_9234) == Decoded(0x9234_0000, false, false)
    ensures Decode(0xff12_3456).overflow
  {
    SmallBytes();
    assert Bytes(0) == 1 && Bytes(1) == 0x100 && Bytes(2) == 0x1_0000;
    NoOverflow(0x0412_3456);
    NoOverflow(0x0492_3456);
    NoOverflow(0x0500_9234);
  }
}
