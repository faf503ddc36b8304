/** Setting and reading compact targets on limb arrays, and the work a target stands for. */
module BlockProof {
  import opened Bits
  import opened Limbs
  import opened LimbShifts
  import opened ArithUint
  import opened CompactTarget

  /** Assignment of a machine word. */
  method AssignWord(t: BaseUint, b: nat)
    requires t.pn.Length >= 2 && b < BASE * BASE
    modifies t.pn
    ensures t.Val() == b
  {
    t.pn[0] := b % BASE;
    t.pn[1] := b / BASE;
    for i := 2 to t.pn.Length
      invariant t.pn[0] as int == b % BASE && t.pn[1] as int == b / BASE
      invariant forall k :: 2 <= k < i ==> t.pn[k] == 0
    {
      t.pn[i] := 0;
    }
    LowOnly(t.pn[..]);
  }

  lemma LowTwo(s: seq<Limb>)
    requires |s| >= 2
    ensures Value(s[..2]) == s[0] + s[1] * BASE && Place(2) == BASE * BASE
  {
    PlaceStep(0);
    PlaceStep(1);
    hide Place;
    ValueStep(s, 0);
    ValueStep(s, 1);
  }

  lemma LowOnly(s: seq<Limb>)
    requires |s| >= 2 && forall k :: 2 <= k < |s| ==> s[k] == 0
    ensures Value(s) == s[0] + s[1] * BASE
  {
    LowTwo(s);
    hide Place;
    ValueSplit(s, 2);
    ZeroValue(s[2..]);
  }

  method GetLow64(t: BaseUint) returns (r: nat)
    requires t.pn.Length >= 2
    ensures r == Mod(t.Val(), BASE * BASE)
  {
    OrWords(t.pn[0], t.pn[1]);
    r := Or(t.pn[0], t.pn[1] * BASE);
    ghost var s := t.pn[..];
    LowTwo(s);
    hide Value, Place, Or;
    ValueSplit(s, 2);
    ValueBound(s[..2]);
    Remainder(Value(s), r, Value(s[2..]), BASE * BASE);
  }

  lemma OrWords(lo: Limb, hi: Limb)
    ensures Or(lo, hi * BASE) == lo + hi * BASE
  {
    Pow2Values();
    MulDivExact(hi, BASE);
    OrDisjoint(lo, hi * BASE, 32);
  }

  lemma Masks(c: nat)
    ensures And(c, 0x7f_ffff) == c % 0x80_0000
    ensures And(c, 0x80_0000) == if (c / 0x80_0000) % 2 == 1 then 0x80_0000 else 0
  {
    Pow2Values();
    assert Pow2(24) == 2 * Pow2(23);
    AndMask(c, 23);
    AndBit(c, 23);
  }

  method SetCompact(t: BaseUint, nCompact: Word32) returns (fNegative: bool, fOverflow: bool)
    requires t.pn.Length == WIDTH
    modifies t.pn
    ensures Decoded(t.Val(), fNegative, fOverflow) == Decode(nCompact)
  {
    Masks(nCompact);
    Pow2Values();
    hide And, Pow2, Shr32, Value, Place, Mod, Div;
    var nSize := nCompact / 0x100_0000;
    var nWord: Limb := And(nCompact, 0x7f_ffff);
    if nSize <= 3 {
      ShiftWord(nWord, 3 - nSize);
      nWord := Shr32(nWord, 8 * (3 - nSize));
      AssignWord(t, nWord);
    } else {
      AssignWord(t, nWord);
      t.ShiftLeftAssign(8 * (nSize - 3));
    }
    fNegative := nWord != 0 && And(nCompact, 0x80_0000) != 0;
    fOverflow := nWord != 0 && (nSize > 34 || (nWord > 0xff && nSize > 33) || (nWord > 0xffff && nSize > 32));
  }

  lemma ShiftWord(w: Limb, k: nat)
    requires k <= 3
    ensures Shr32(w, 8 * k) as int == Div(w, Bytes(k))
  {
  }

  method GetCompact(t: BaseUint, fNegative: bool) returns (nCompact: Word32)
    requires t.pn.Length == WIDTH
    ensures nCompact as int == Encode(t.Val(), fNegative)
  {
    hide And, Pow2, Value, Place, Mod, Div, Or, Bytes, ByteLen, Mantissa;
    ghost var v := t.Val();
    ValueBound(t.pn[..]);
    MantissaBound(v);
    SizeBound(v);
    var bits := t.Bits();
    BitsToBytes(v, bits);
    var nSize := (bits + 7) / 8;
    var word := GetMantissa(t, nSize);
    Masks(word);
    if And(word, 0x80_0000) != 0 {
      word := word / 0x100;
      nSize := nSize + 1;
    }
    assert word < 0x80_0000 && nSize < 256;
    nCompact := Pack(word, nSize, fNegative);
  }

  method GetMantissa(t: BaseUint, nSize: nat) returns (word: nat)
    requires t.pn.Length == WIDTH && nSize == ByteLen(t.Val())
    ensures word == Mantissa(t.Val())
  {
    hide Pow2, Value, Place, Mod, Div, Or, Bytes, ByteLen;
    ghost var v := t.Val();
    MantissaBound(v);
    if nSize <= 3 {
      var low := GetLow64(t);
      LowExact(v);
      word := (low * ShiftFactor(3 - nSize)) % 0x1_0000_0000;
    } else {
      var bn := new BaseUint.Copy(t);
      bn.ShiftRightAssign(8 * (nSize - 3));
      BytesIsShift(nSize - 3);
      var low := GetLow64(bn);
      ModSmall(Mantissa(v), BASE * BASE);
      word := low % 0x1_0000_0000;
    }
  }

  /** The factor that shifts by `k` bytes. */
  function ShiftFactor(k: nat): (p: nat)
    ensures p == Bytes(k)
  {
    Pow2(8 * k)
  }

  lemma BytesIsShift(k: nat)
    ensures Bytes(k) == Pow2(8 * k)
  {
  }

  lemma LowExact(v: nat)
    requires ByteLen(v) <= 3
    ensures Mod(v, BASE * BASE) == v
  {
    hide Mod, Bytes, ByteLen;
    ByteLenBounds(v);
    SmallBytes();
    BytesMonotone(ByteLen(v), 3);
    ModSmall(v, BASE * BASE);
  }

  method Pack(word: nat, nSize: nat, fNegative: bool) returns (nCompact: Word32)
    requires word < 0x80_0000 && nSize < 256
    ensures nCompact as int == word + nSize * 0x100_0000 + if fNegative && word != 0 then 0x80_0000 else 0
  {
    hide Or, And;
    OrSize(word, nSize);
    SignClear(word, nSize);
    var c := Or(word, nSize * 0x100_0000);
    OrSign(c);
    Masks(c);
    nCompact := if fNegative && And(c, 0x7f_ffff) != 0 then Or(c, 0x80_0000) else c;
  }

  lemma SignClear(word: nat, nSize: nat)
    requires word < 0x80_0000
    ensures var c := word + nSize * 0x100_0000; (c / 0x80_0000) % 2 == 0 && c % 0x80_0000 == word
  {
  }

  lemma OrSize(word: nat, nSize: nat)
    requires word < 0x80_0000
    ensures Or(word, nSize * 0x100_0000) == word + nSize * 0x100_0000
  {
    Pow2Values();
    MulDivExact(nSize, 0x100_0000);
    OrDisjoint(word, nSize * 0x100_0000, 24);
  }

  /** Setting a bit that is clear adds it. */
  lemma OrSign(c: nat)
    requires (c / 0x80_0000) % 2 == 0
    ensures Or(c, 0x80_0000) == c + 0x80_0000
  {
    Pow2Values();
    assert Pow2(24) == 2 * Pow2(23);
    hide Pow2;
    OrClearBit(c, 23);
  }

  lemma {:induction false} OrClearBit(c: nat, k: nat)
    requires (c / Pow2(k)) % 2 == 0
    ensures Or(c, Pow2(k)) == c + Pow2(k)
  {
    if k == 0 {
      OrZero(c / 2);
    } else {
      HalfDiv(c, Pow2(k - 1));
      OrClearBit(c / 2, k - 1);
    }
  }

  lemma HalfDiv(c: nat, p: nat)
    requires p > 0
    ensures c / (2 * p) == (c / 2) / p
  {
    DivDiv(c, 2, p);
  }

  // ---------- proof of work ----------

  /** The expected number of hashes to meet the target of a block; zero for words that are no target. */
  function Proof(nBits: Word32): nat {
    var d := Decode(nBits);
    if d.negative || d.overflow || d.value == 0 then 0 else Div(Place(WIDTH), d.value + 1)
  }

  method GetBlockProof(nBits: Word32) returns (r: BaseUint)
    ensures fresh(r) && fresh(r.pn) && r.pn.Length == WIDTH
    ensures r.Val() == Proof(nBits)
  {
    hide Pow2, Value, Place, Mod, Div, Decode;
    var bnTarget := new BaseUint(WIDTH);
    var fNegative, fOverflow := SetCompact(bnTarget, nBits);
    var zero := new BaseUint(WIDTH);
    var order := bnTarget.CompareTo(zero);
    if fNegative || fOverflow || order == 0 {
      return zero;
    }
    ghost var t := bnTarget.Val();
    NoOverflow(nBits);
    r := bnTarget.Inverted();
    bnTarget.Increment();
    ModSmall(t + 1, Place(WIDTH));
    var threw := r.DivAssign(bnTarget);
    assert r.Val() == Div(Place(WIDTH) - 1 - t, t + 1);
    ProofByComplement(t, Place(WIDTH));
    r.Increment();
    ModSmall(Div(Place(WIDTH), t + 1), Place(WIDTH));
  }

  /** The quotient of the modulus itself, computed without ever holding the modulus. */
  lemma ProofByComplement(t: nat, m: nat)
    requires 0 < t && t + 1 < m
    ensures Div(m - 1 - t, t + 1) + 1 == Div(m, t + 1) < m
  {
    var q, r := (m - 1 - t) / (t + 1), (m - 1 - t) % (t + 1);
    DivModSplit(m - 1 - t, t + 1);
    assert (q + 1) * (t + 1) == q * (t + 1) + (t + 1);
    DivModUnique(m, t + 1, q + 1, r);
    MulLe(2, t + 1, q + 1);
  }

  /** A harder target never counts as less work, and every valid target counts as some. */
  lemma HarderIsMore(a: Word32, b: Word32)
    requires Proof(a) != 0 && Proof(b) != 0 && Decode(a).value <= Decode(b).value
    ensures Proof(a) >= Proof(b)
  {
    hide Decode, Place, Pow2;
    var m, x, y := Place(WIDTH), Decode(a).value + 1, Decode(b).value + 1;
    var p, q := m / x, m / y;
    DivModSplit(m, x);
    DivModSplit(m, y);
    if p < q {
      MulLe(p + 1, q, x);
      MulLe(x, y, q);
    }
  }

  lemma ValidIffProof(c: Word32)
    ensures Proof(c) == 0 <==> Decode(c).negative || Decode(c).overflow || Decode(c).value == 0
  {
    var d := Decode(c);
    if !d.negative && !d.overflow && d.value != 0 {
      NoOverflow(c);
      hide Decode, Place, Pow2, Mod, Div;
      ProofByComplement(d.value, Place(WIDTH));
    }
  }
}
