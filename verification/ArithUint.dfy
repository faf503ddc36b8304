/**
 Unsigned big integers held in limb arrays, changed in place limb by limb. Every
 operator is proved to compute its integer counterpart modulo the width.
 */
module ArithUint {
  import opened Bits
  import opened Limbs
  import opened LimbShifts

  const MAX64 := 0xffff_ffff_ffff_ffff

  class BaseUint {
    const pn: array<Limb>

    ghost function Val(): nat
      reads pn
    {
      Value(pn[..])
    }

    /** One more than the largest value of this width. */
    ghost function Modulus(): nat { Place(pn.Length) }

    constructor (width: nat)
      ensures fresh(pn) && pn.Length == width && Val() == 0
      ensures forall i :: 0 <= i < width ==> pn[i] == 0
    {
      pn := new Limb[width](_ => 0);
      new;
      ZeroValue(pn[..]);
    }

    /** A copy. */
    constructor Copy(b: BaseUint)
      ensures fresh(pn) && pn.Length == b.pn.Length && pn[..] == b.pn[..] && Val() == b.Val()
    {
      pn := new Limb[b.pn.Length](i requires 0 <= i < b.pn.Length reads b.pn => b.pn[i]);
    }

    method AddAssign(b: BaseUint)
      requires b.pn.Length == pn.Length
      modifies pn
      ensures Val() == Mod(old(Val()) + old(b.Val()), Modulus())
    {
      hide Place, Mod;
      ghost var x, y := pn[..], b.pn[..];
      var carry, i := 0, 0;
      while i < pn.Length
        invariant 0 <= i <= pn.Length && 0 <= carry <= 1
        invariant pn[i..] == x[i..] && b.pn[i..] == y[i..]
        invariant Value(pn[..i]) + carry * Place(i) == Value(x[..i]) + Value(y[..i])
      {
        ghost var was := pn[..];
        assert was[i..][0] == x[i..][0] && b.pn[i..][0] == y[i..][0];
        var n := carry + pn[i] + b.pn[i];
        assert n <= MAX64;
        pn[i] := n % BASE;
        AddColumn(x, y, was, i, carry, n);
        assert pn[..i + 1] == was[..i] + [n % BASE];
        carry := n / BASE;
        i := i + 1;
      }
      assert pn[..pn.Length] == pn[..] && x[..pn.Length] == x && y[..pn.Length] == y;
      Total(pn[..], Value(x) + Value(y), carry);
    }

    /** Prefix increment: carries run over the limbs that were full. */
    method Increment()
      modifies pn
      ensures Val() == Mod(old(Val()) + 1, Modulus())
    {
      hide Place, Mod;
      ghost var x := pn[..];
      PlaceStep(0);
      var i := 0;
      while i < pn.Length
        invariant 0 <= i <= pn.Length && pn[i..] == x[i..]
        invariant Value(pn[..i]) == 0 && Value(x[..i]) + 1 == Place(i)
      {
        ghost var was := pn[..];
        assert was[i..][0] == x[i..][0];
        pn[i] := (pn[i] + 1) % BASE;
        assert pn[..i + 1] == was[..i] + [pn[i]];
        if pn[i] != 0 {
          IncrementStops(x, was, pn[..], i);
          return;
        }
        IncrementGoesOn(x, was, i);
        i := i + 1;
      }
      assert pn[..pn.Length] == pn[..] && x[..pn.Length] == x;
      Total(pn[..], Value(x) + 1, 1);
    }

    /** Prefix decrement: borrows run over the limbs that were zero. */
    method Decrement()
      modifies pn
      ensures Val() == Mod(old(Val()) - 1, Modulus())
    {
      hide Place, Mod;
      ghost var x := pn[..];
      PlaceStep(0);
      var i := 0;
      while i < pn.Length
        invariant 0 <= i <= pn.Length && pn[i..] == x[i..]
        invariant Value(x[..i]) == 0 && Value(pn[..i]) + 1 == Place(i)
      {
        ghost var was := pn[..];
        assert was[i..][0] == x[i..][0];
        pn[i] := (pn[i] - 1) % BASE;
        assert pn[..i + 1] == was[..i] + [pn[i]];
        if pn[i] != BASE - 1 {
          DecrementStops(x, was, pn[..], i);
          return;
        }
        DecrementGoesOn(x, was, i);
        i := i + 1;
      }
      assert pn[..pn.Length] == pn[..] && x[..pn.Length] == x;
      MinusOne(Place(pn.Length));
    }

    /** Two's complement: all limbs inverted, then one added. */
    method Negated() returns (ret: BaseUint)
      ensures fresh(ret) && fresh(ret.pn) && ret.pn.Length == pn.Length
      ensures ret.Val() == Mod(0 - Val(), Modulus())
    {
      hide Place, Mod;
      ret := Inverted();
      ret.Increment();
      assert 0 - Val() + Modulus() == Modulus() - 1 - Val() + 1;
      ModShift(0 - Val(), Modulus());
    }

    method Inverted() returns (ret: BaseUint)
      ensures fresh(ret) && fresh(ret.pn) && ret.pn.Length == pn.Length
      ensures ret.Val() == Modulus() - 1 - Val()
    {
      hide Place;
      ret := new BaseUint(pn.Length);
      for i := 0 to pn.Length
        invariant forall j :: 0 <= j < i ==> ret.pn[j] == BASE - 1 - pn[j]
      {
        ret.pn[i] := BASE - 1 - pn[i];
      }
      Complement(pn[..], ret.pn[..]);
    }

    method SubAssign(b: BaseUint)
      requires b.pn.Length == pn.Length
      modifies pn
      ensures Val() == Mod(old(Val()) - old(b.Val()), Modulus())
    {
      hide Place, Mod;
      var minus := b.Negated();
      ghost var x: int, y: int := Val(), b.Val();
      AddAssign(minus);
      ModSum(x, 0 - y, Modulus());
    }

    /** Multiplication by one word. */
    method MulAssign32(b32: Limb)
      modifies pn
      ensures Val() == Mod(old(Val()) * b32, Modulus())
    {
      hide Place, Mod;
      ghost var x := pn[..];
      var carry: int, i := 0, 0;
      while i < pn.Length
        invariant 0 <= i <= pn.Length && 0 <= carry < BASE
        invariant pn[i..] == x[i..]
        invariant Value(pn[..i]) + carry * Place(i) == b32 * Value(x[..i])
      {
        ghost var was := pn[..];
        assert was[i..][0] == x[i..][0];
        Headroom(carry, 0, b32, pn[i]);
        var n := carry + b32 * pn[i];
        assert n <= MAX64;
        pn[i] := n % BASE;
        assert pn[..i + 1] == was[..i] + [n % BASE];
        Mul32Column(x, was, i, carry, b32, n);
        carry := n / BASE;
        i := i + 1;
      }
      assert pn[..pn.Length] == pn[..] && x[..pn.Length] == x;
      Total(pn[..], Value(x) * b32, carry);
    }

    /** Schoolbook multiplication, dropping everything above the width. */
    method MulAssign(b: BaseUint)
      requires b.pn.Length == pn.Length
      modifies pn
      ensures Val() == Mod(old(Val()) * old(b.Val()), Modulus())
    {
      hide Place, Mod, Value;
      ghost var x, y := pn[..], b.pn[..];
      var a := new Limb[pn.Length](_ => 0);
      ZeroValue(a[..]);
      ghost var dropped := 0;
      var j := 0;
      ValueNone(x);
      while j < pn.Length
        invariant 0 <= j <= pn.Length && a.Length == pn.Length
        invariant pn[..] == x && b.pn[..] == y
        invariant Value(a[..]) + dropped * Place(pn.Length) == Value(x[..j]) * Value(y)
        modifies a
      {
        ghost var was := a[..];
        ghost var carry := AddRow(a, pn[j], b, j);
        RowTotal(was, a[..], x, y, j, carry, dropped);
        dropped := dropped + carry + x[j] * Value(y[pn.Length - j..]);
        j := j + 1;
      }
      assert x[..pn.Length] == x;
      Total(a[..], Value(x) * Value(y), dropped);
      Store(a);
    }

    method Store(a: array<Limb>)
      requires a.Length == pn.Length && a != pn
      modifies pn
      ensures pn[..] == a[..]
    {
      for i := 0 to pn.Length
        invariant forall k :: 0 <= k < i ==> pn[k] == a[k]
      {
        pn[i] := a[i];
      }
    }

    /** Numeric ordering. */
    method CompareTo(b: BaseUint) returns (r: int)
      requires b.pn.Length == pn.Length
      ensures r == if Val() < b.Val() then -1 else if Val() > b.Val() then 1 else 0
    {
      hide Place, Value;
      var i := pn.Length - 1;
      while i >= 0
        invariant -1 <= i < pn.Length
        invariant forall k :: i < k < pn.Length ==> pn[k] == b.pn[k]
      {
        if pn[i] < b.pn[i] {
          FirstDifference(pn[..], b.pn[..], i);
          return -1;
        }
        if pn[i] > b.pn[i] {
          FirstDifference(b.pn[..], pn[..], i);
          return 1;
        }
        i := i - 1;
      }
      assert pn[..] == b.pn[..];
      return 0;
    }

    /** The position of the highest set bit plus one, or zero. */
    method Bits() returns (n: nat)
      ensures n <= 32 * pn.Length
      ensures n == 0 <==> Val() == 0
      ensures Val() < Pow2(n) && (n > 0 ==> Pow2(n - 1) <= Val())
    {
      hide Value, Place;
      var pos := pn.Length - 1;
      while pos >= 0
        invariant -1 <= pos < pn.Length
        invariant forall k :: pos < k < pn.Length ==> pn[k] == 0
      {
        if pn[pos] != 0 {
          var nbits := TopBit(pn[pos]);
          TopBits(pn[..], pos, nbits);
          return 32 * pos + nbits + 1;
        }
        pos := pos - 1;
      }
      ZeroValue(pn[..]);
      return 0;
    }

    method ShiftLeftAssign(shift: nat)
      modifies pn
      ensures Val() == Mod(old(Val()) * Pow2(shift), Modulus())
    {
      hide Place, Mod, Value, Pow2, LeftDone;
      var a := pn[..];
      Clear();
      var k, b := shift / 32, shift % 32;
      ghost var hi := SpreadLeft(a, k, b);
      if k <= pn.Length {
        LeftTotal(a, pn[..], k, b, hi);
      } else {
        ZeroValue(pn[..]);
        ShiftedOut(Value(a), pn.Length, shift);
      }
    }

    /** The loop of the left shift over the limbs of the copy `a`. */
    method SpreadLeft(a: seq<Limb>, k: nat, b: nat) returns (ghost hi: nat)
      requires |a| == pn.Length && b < 32 && forall i :: 0 <= i < pn.Length ==> pn[i] == 0
      modifies pn
      ensures k <= pn.Length ==> LeftDone(a, pn[..], k, Pow2(b), pn.Length - k, hi)
      ensures k > pn.Length ==> forall i :: 0 <= i < pn.Length ==> pn[i] == 0
    {
      hide Place, Value, Pow2, Or, Shl32, Shr32, LeftDone, LeftOver;
      var w := pn.Length;
      ghost var j := 0;
      hi := 0;
      if k <= w {
        LeftBegin(a, pn[..], k, Pow2(b));
      }
      for i := 0 to w
        invariant k <= w ==> 0 <= j && LeftDone(a, pn[..], k, Pow2(b), j, hi) && j == if i + k <= w then i else w - k
        invariant k > w ==> forall m :: 0 <= m < w ==> pn[m] == 0
      {
        if i + k < w {
          ghost var was := pn[..];
          LeftFacts(a, was, k, b, j, hi);
          OrIntoLeft(a[i], i + k, b);
          LeftStep(a, was, pn[..], k, b, j, hi);
          j, hi := j + 1, LeftOver(a[i], hi, b);
        }
      }
    }

    /** Or-s one shifted limb into the place it lands on and the one above. */
    method OrIntoLeft(x: Limb, at: nat, b: nat)
      requires at < pn.Length && b < 32 && Or(pn[at], Shl32(x, b)) < BASE
      requires at + 1 < pn.Length ==> pn[at + 1] == 0 && (b != 0 ==> Or(0, Shr32(x, 32 - b)) == Shr32(x, 32 - b))
      modifies pn
      ensures pn[at] as int == Or(old(pn[at]), Shl32(x, b))
      ensures at + 1 < pn.Length ==> pn[at + 1] == if b == 0 then 0 else Shr32(x, 32 - b)
      ensures forall m :: 0 <= m < pn.Length && m != at && m != at + 1 ==> pn[m] == old(pn[m])
    {
      hide Or, Shl32, Shr32;
      if at + 1 < pn.Length && b != 0 {
        pn[at + 1] := Or(pn[at + 1], Shr32(x, 32 - b));
      }
      pn[at] := Or(pn[at], Shl32(x, b));
    }

    method ShiftRightAssign(shift: nat)
      modifies pn
      ensures Val() == Div(old(Val()), Pow2(shift))
    {
      hide Place, Div, Value, Pow2, RightDone;
      var a := pn[..];
      Clear();
      var k, b := shift / 32, shift % 32;
      SpreadRight(a, k, b);
      if k < pn.Length {
        RightTotal(a, pn[..], k, b);
      } else {
        ZeroValue(pn[..]);
        ShiftedDown(a, shift);
      }
    }

    /** The loop of the right shift over the limbs of the copy `a`. */
    method SpreadRight(a: seq<Limb>, k: nat, b: nat)
      requires |a| == pn.Length && b < 32 && forall i :: 0 <= i < pn.Length ==> pn[i] == 0
      modifies pn
      ensures k < pn.Length ==> RightDone(a, pn[..], k, b, pn.Length)
      ensures k >= pn.Length ==> forall i :: 0 <= i < pn.Length ==> pn[i] == 0
    {
      hide Place, Value, Pow2, Or, Shl32, Shr32, RightDone;
      for i := 0 to pn.Length
        invariant i <= k ==> forall m :: 0 <= m < pn.Length ==> pn[m] == 0
        invariant i > k ==> RightDone(a, pn[..], k, b, i)
      {
        ghost var was := pn[..];
        if i > k {
          RightFacts(a, was, k, b, i);
        }
        if i - k - 1 >= 0 && b != 0 {
          pn[i - k - 1] := Or(pn[i - k - 1], Shl32(a[i], 32 - b));
        }
        if i - k >= 0 {
          OrZero(Shr32(a[i], b));
          pn[i - k] := Or(pn[i - k], Shr32(a[i], b));
          if i == k {
            RightFirst(a, pn[..], k, b);
          } else {
            RightStep(a, was, pn[..], k, b, i);
          }
        }
      }
    }

    method Clear()
      modifies pn
      ensures forall i :: 0 <= i < pn.Length ==> pn[i] == 0
    {
      for i := 0 to pn.Length
        invariant forall j :: 0 <= j < i ==> pn[j] == 0
      {
        pn[i] := 0;
      }
    }

    /** Shift-and-subtract division; dividing by zero throws, leaving zero behind. */
    method DivAssign(b: BaseUint) returns (threw: bool)
      requires b.pn.Length == pn.Length
      modifies pn
      ensures threw <==> old(b.Val()) == 0
      ensures threw ==> Val() == 0
      ensures !threw ==> old(b.Val()) > 0 && Val() == Div(old(Val()), old(b.Val()))
    {
      hide Place, Value, Pow2, Mod, Div;
      ghost var x, y := Val(), b.Val();
      var div := new BaseUint.Copy(b);
      var num := new BaseUint.Copy(this);
      Clear();
      ZeroValue(pn[..]);
      var numBits := num.Bits();
      var divBits := div.Bits();
      if divBits == 0 {
        return true;
      }
      if divBits > numBits {
        TooSmall(x, y, numBits, divBits);
        return false;
      }
      var shift := numBits - divBits;
      DivideStart(x, y, numBits, divBits, pn.Length);
      div.ShiftLeftAssign(shift);
      DivideLoop(num, div, shift, x, y);
      threw := false;
    }

    /** The quotient bits from `top` down, each set when the aligned divisor still fits. */
    method DivideLoop(num: BaseUint, div: BaseUint, top: nat, ghost x: nat, ghost y: nat)
      requires num.pn.Length == div.pn.Length == pn.Length && num.pn != div.pn && num.pn != pn && div.pn != pn
      requires y > 0 && top < 32 * pn.Length && forall i :: 0 <= i < pn.Length ==> pn[i] == 0
      requires num.Val() == x && x < y * Pow2(top + 1) && div.Val() == y * Pow2(top)
      modifies pn, num.pn, div.pn
      ensures Val() == Div(x, y)
    {
      hide Place, Value, Pow2, Mod, Div, Or;
      ZeroValue(pn[..]);
      ClearBelowStart(pn[..], top);
      var shift: int := top;
      while shift >= 0
        invariant -1 <= shift <= top
        invariant x == Val() * y + num.Val() && num.Val() < y * Pow2(shift + 1)
        invariant shift >= 0 ==> div.Val() == y * Pow2(shift) && ClearBelow(pn[..], shift)
      {
        ghost var q, n := Val(), num.Val();
        Doubling(y, shift);
        var c := num.CompareTo(div);
        if c >= 0 {
          ValueBound(num.pn[..]);
          num.SubAssign(div);
          Difference(n, div.Val(), num.pn[..]);
          SetBit(shift);
          DivideStep(x, y, q, n, shift);
        } else {
          ClearBelowNext(pn[..], shift);
        }
        div.ShiftRightAssign(1);
        Halve(y, shift);
        shift := shift - 1;
      }
      DivideEnd(x, y, Val(), num.Val());
    }

    /** Sets one bit of the quotient that is known to be clear. */
    method SetBit(shift: nat)
      requires shift < 32 * pn.Length && ClearBelow(pn[..], shift)
      modifies pn
      ensures Val() == old(Val()) + Pow2(shift)
      ensures shift > 0 ==> ClearBelow(pn[..], shift - 1)
    {
      hide Place, Value, Pow2, Or;
      ghost var s := pn[..];
      BitFree(s, shift);
      pn[shift / 32] := Or(pn[shift / 32], Pow2(shift % 32));
      assert pn[..] == s[shift / 32 := s[shift / 32] + Pow2(shift % 32)];
    }
  }

  lemma AddColumn(x: seq<Limb>, y: seq<Limb>, s: seq<Limb>, i: nat, carry: nat, n: nat)
    requires i < |x| && i < |y| && i < |s| && n == carry + x[i] + y[i]
    requires Value(s[..i]) + carry * Place(i) == Value(x[..i]) + Value(y[..i])
    ensures Value(s[..i] + [n % BASE]) + (n / BASE) * Place(i + 1) == Value(x[..i + 1]) + Value(y[..i + 1])
  {
    hide Place, Value;
    ValueStep(x, i);
    ValueStep(y, i);
    ValuePush(s[..i], n % BASE);
    Carry(n, i);
    Distribute3(carry, x[i], y[i], Place(i));
  }

  lemma Distribute3(a: int, b: int, c: int, p: int)
    ensures (a + b + c) * p == a * p + b * p + c * p
  {
  }

  lemma IncrementStops(x: seq<Limb>, was: seq<Limb>, s: seq<Limb>, i: nat)
    requires i < |x| && |x| == |was| == |s| && s[i + 1..] == x[i + 1..] && s[i] as int == x[i] as int + 1
    requires s[..i] == was[..i]
    requires Value(was[..i]) == 0 && Value(x[..i]) + 1 == Place(i)
    ensures Value(s) == Value(x) + 1 && Value(s) == Mod(Value(x) + 1, Place(|x|))
  {
    hide Place, Value, Mod;
    ValueStep(x, i);
    ValueStep(s, i);
    SameHigh(s, x, i + 1);
    Distribute3(x[i], 1, 0, Place(i));
    ValueBound(s);
    Remainder(Value(s), Value(s), 0, Place(|x|));
  }

  lemma IncrementGoesOn(x: seq<Limb>, was: seq<Limb>, i: nat)
    requires i < |x| && i < |was| && x[i] == BASE - 1
    requires Value(was[..i]) == 0 && Value(x[..i]) + 1 == Place(i)
    ensures Value(was[..i] + [0]) == 0 && Value(x[..i + 1]) + 1 == Place(i + 1)
  {
    hide Place, Value;
    ValueStep(x, i);
    ValuePush(was[..i], 0);
    PlaceStep(i);
    Distribute3(BASE, -1, 0, Place(i));
  }

  lemma DecrementStops(x: seq<Limb>, was: seq<Limb>, s: seq<Limb>, i: nat)
    requires i < |x| && |x| == |was| == |s| && s[i + 1..] == x[i + 1..] && s[i] as int + 1 == x[i] as int
    requires s[..i] == was[..i]
    requires Value(x[..i]) == 0 && Value(was[..i]) + 1 == Place(i)
    ensures Value(s) == Mod(Value(x) - 1, Place(|x|))
  {
    hide Place, Value, Mod;
    ValueStep(x, i);
    ValueStep(s, i);
    SameHigh(s, x, i + 1);
    Distribute3(x[i], -1, 0, Place(i));
    ValueBound(s);
    Remainder(Value(s), Value(s), 0, Place(|x|));
  }

  lemma DecrementGoesOn(x: seq<Limb>, was: seq<Limb>, i: nat)
    requires i < |x| && i < |was| && x[i] == 0
    requires Value(x[..i]) == 0 && Value(was[..i]) + 1 == Place(i)
    ensures Value(x[..i + 1]) == 0 && Value(was[..i] + [BASE - 1]) + 1 == Place(i + 1)
  {
    hide Place, Value;
    ValueStep(x, i);
    ValuePush(was[..i], BASE - 1);
    PlaceStep(i);
    Distribute3(BASE, -1, 0, Place(i));
  }

  lemma {:induction false} Complement(s: seq<Limb>, t: seq<Limb>)
    requires |s| == |t| && forall i :: 0 <= i < |s| ==> t[i] == BASE - 1 - s[i]
    ensures Value(s) + Value(t) == Place(|s|) - 1
  {
    hide Place;
    PlaceStep(0);
    if s != [] {
      var n := |s| - 1;
      Complement(s[..n], t[..n]);
      PlaceStep(n);
      Distribute3(s[n], t[n], 0, Place(n));
      Distribute3(BASE, -1, 0, Place(n));
    }
  }

  /** The widest column sum still fits 64 bits. */
  lemma Headroom(carry: nat, limb: Limb, a: Limb, b: Limb)
    requires carry < BASE
    ensures 0 <= a * b && carry + limb + a * b <= MAX64
    ensures (carry + limb + a * b) / BASE < BASE
  {
    MulLe(a, BASE - 1, b);
    MulLe(b, BASE - 1, BASE - 1);
  }

  lemma Mul32Column(x: seq<Limb>, s: seq<Limb>, i: nat, carry: nat, b32: Limb, n: nat)
    requires i < |x| && i < |s| && n == carry + b32 * x[i]
    requires Value(s[..i]) + carry * Place(i) == b32 * Value(x[..i])
    ensures Value(s[..i] + [n % BASE]) + (n / BASE) * Place(i + 1) == b32 * Value(x[..i + 1])
  {
    hide Place, Value;
    ValueStep(x, i);
    ValuePush(s[..i], n % BASE);
    Carry(n, i);
    Distribute3(carry, b32 * x[i], 0, Place(i));
    assert b32 * (Value(x[..i]) + x[i] * Place(i)) == b32 * Value(x[..i]) + (b32 * x[i]) * Place(i);
  }

  lemma MinusOne(m: nat)
    requires m > 0
    ensures Mod(-1, m) == m - 1
  {
    DivModUnique(-1, m, -1, m - 1);
  }

  lemma ModShift(v: int, m: nat)
    requires m > 0
    ensures Mod(v + m, m) == Mod(v, m)
  {
    DivModSplit(v, m);
    assert v + m == (v / m + 1) * m + v % m;
    DivModUnique(v + m, m, v / m + 1, v % m);
  }

  lemma ModSum(x: int, y: int, m: nat)
    requires m > 0
    ensures Mod(x + Mod(y, m), m) == Mod(x + y, m)
  {
    var q, r := y / m, y % m;
    var q', r' := (x + r) / m, (x + r) % m;
    DivModSplit(y, m);
    DivModSplit(x + r, m);
    assert x + y == (q + q') * m + r' by {
      Distribute3(q, q', 0, m);
    }
    DivModUnique(x + y, m, q + q', r');
  }

  /** Adds one limb times `b`, shifted by `j` limbs, into `a`; what does not fit is the carry. */
  method AddRow(a: array<Limb>, limb: Limb, b: BaseUint, j: nat) returns (carry: nat)
    requires a.Length == b.pn.Length && a != b.pn && j < a.Length
    modifies a
    ensures Value(a[..]) + carry * Place(a.Length) == Value(old(a[..])) + limb * Value(b.pn[..a.Length - j]) * Place(j)
  {
    hide Place, Value;
    ghost var was, y := a[..], b.pn[..];
    carry := 0;
    var i := 0;
    ValueNone(y);
    while i + j < a.Length
      invariant 0 <= i <= a.Length - j && 0 <= carry < BASE
      invariant a[i + j..] == was[i + j..] && b.pn[..] == y
      invariant Value(a[..i + j]) + carry * Place(i + j) == Value(was[..i + j]) + limb * Value(y[..i]) * Place(j)
    {
      ghost var s := a[..];
      assert s[i + j..][0] == was[i + j..][0];
      Headroom(carry, a[i + j], limb, b.pn[i]);
      var n := carry + a[i + j] + limb * b.pn[i];
      assert n <= MAX64;
      a[i + j] := n % BASE;
      assert a[..i + j + 1] == s[..i + j] + [n % BASE];
      RowColumn(was, s, y, i, j, limb, carry, n);
      carry := n / BASE;
      i := i + 1;
    }
    assert a[..a.Length] == a[..] && was[..a.Length] == was && y[..a.Length - j] == b.pn[..a.Length - j];
  }

  lemma ValueNone(s: seq<Limb>)
    ensures Value(s[..0]) == 0
  {
  }

  lemma RowColumn(was: seq<Limb>, s: seq<Limb>, y: seq<Limb>, i: nat, j: nat, limb: Limb, carry: nat, n: nat)
    requires i + j < |was| && i + j < |s| && i < |y| && n == carry + was[i + j] + limb * y[i]
    requires Value(s[..i + j]) + carry * Place(i + j) == Value(was[..i + j]) + limb * Value(y[..i]) * Place(j)
    ensures Value(s[..i + j] + [n % BASE]) + (n / BASE) * Place(i + j + 1)
         == Value(was[..i + j + 1]) + limb * Value(y[..i + 1]) * Place(j)
  {
    hide Place, Value;
    ValueStep(was, i + j);
    ValueStep(y, i);
    ValuePush(s[..i + j], n % BASE);
    Carry(n, i + j);
    Distribute3(carry, was[i + j], limb * y[i], Place(i + j));
    PlaceAdd(i, j);
    RowSpread(limb, Value(y[..i]), y[i], Place(i), Place(j));
  }

  lemma RowSpread(l: int, v: int, y: int, p: int, q: int)
    ensures l * (v + y * p) * q == l * v * q + (l * y) * (p * q)
  {
    assert l * (v + y * p) == l * v + (l * y) * p;
    assert (l * v + (l * y) * p) * q == l * v * q + ((l * y) * p) * q;
  }

  /** What one row adds to the product, and what of it falls off the top. */
  lemma RowTotal(was: seq<Limb>, s: seq<Limb>, x: seq<Limb>, y: seq<Limb>, j: nat, carry: nat, dropped: int)
    requires j < |x| && |x| == |y| == |s| == |was|
    requires Value(was) + dropped * Place(|x|) == Value(x[..j]) * Value(y)
    requires Value(s) + carry * Place(|x|) == Value(was) + x[j] * Value(y[..|x| - j]) * Place(j)
    ensures Value(s) + (dropped + carry + x[j] * Value(y[|x| - j..])) * Place(|x|) == Value(x[..j + 1]) * Value(y)
  {
    hide Place, Value;
    var w := |x|;
    ValueStep(x, j);
    ValueSplit(y, w - j);
    PlaceAdd(w - j, j);
    RowAlgebra(Value(s), Value(was), Value(x[..j]), x[j], Value(y[..w - j]), Value(y[w - j..]), Place(w - j), Place(j),
      carry, dropped, Value(y), Place(w));
  }

  lemma RowAlgebra(
    s: int, was: int, xs: int, l: int, lo: int, hi: int, pw: int, pj: int, carry: int, dropped: int, y: int, p: int)
    requires y == lo + pw * hi && p == pw * pj
    requires was + dropped * p == xs * y
    requires s + carry * p == was + l * lo * pj
    ensures s + (dropped + carry + l * hi) * p == (xs + l * pj) * y
  {
    Distribute3(dropped, carry, l * hi, p);
    assert (xs + l * pj) * y == xs * y + (l * pj) * y;
    assert (l * pj) * (lo + pw * hi) == (l * pj) * lo + (l * pj) * (pw * hi);
    assert (l * pj) * lo == l * lo * pj;
    assert (l * pj) * (pw * hi) == (l * hi) * (pw * pj);
  }

  /** The highest set bit of a limb that is not zero. */
  method TopBit(limb: Limb) returns (nbits: nat)
    requires limb != 0
    ensures nbits < 32 && Pow2(nbits) <= limb < Pow2(nbits + 1)
  {
    Pow2Values();
    nbits := 31;
    while nbits > 0
      invariant 0 <= nbits <= 31 && limb < Pow2(nbits + 1)
    {
      AndBit(limb, nbits);
      TopBitTest(limb, nbits);
      if And(limb, Pow2(nbits)) != 0 {
        return;
      }
      nbits := nbits - 1;
    }
  }

  lemma TopBitTest(x: nat, k: nat)
    requires x < Pow2(k + 1)
    ensures Bit(x, k) <==> x >= Pow2(k)
  {
    var p := Pow2(k);
    if x >= p {
      DivModUnique(x, p, 1, x - p);
    } else {
      DivModUnique(x, p, 0, x);
    }
  }

  lemma FirstDifference(s: seq<Limb>, t: seq<Limb>, i: nat)
    requires |s| == |t| && i < |s| && s[i] < t[i] && forall k :: i < k < |s| ==> s[k] == t[k]
    ensures Value(s) < Value(t)
  {
    hide Place, Value;
    assert s[i + 1..] == t[i + 1..];
    TopDecides(s, t, i);
    SameHigh(s, t, i + 1);
  }

  lemma TopBits(s: seq<Limb>, pos: nat, nbits: nat)
    requires pos < |s| && (forall k :: pos < k < |s| ==> s[k] == 0)
    requires nbits < 32 && Pow2(nbits) <= s[pos] < Pow2(nbits + 1)
    ensures Pow2(32 * pos + nbits) <= Value(s) < Pow2(32 * pos + nbits + 1)
  {
    Pow2Add(nbits, 32 * pos);
    Pow2Add(nbits + 1, 32 * pos);
    assert Place(pos) == Pow2(32 * pos);
    hide Place, Value, Pow2;
    ValueSplit(s, pos + 1);
    ZeroValue(s[pos + 1..]);
    ValueStep(s, pos);
    ValueBound(s[..pos]);
    Sandwich(Value(s[..pos]), s[pos], Place(pos), Pow2(nbits), Pow2(nbits + 1));
  }

  lemma Sandwich(lo: nat, limb: nat, p: nat, a: nat, b: nat)
    requires lo < p && a <= limb < b
    ensures a * p <= lo + limb * p < b * p
  {
    MulLe(a, limb, p);
    MulLe(limb + 1, b, p);
    Distribute3(limb, 1, 0, p);
  }

  // ---------- division ----------

  /** All bits up to and including bit `n` are clear. */
  ghost predicate ClearBelow(s: seq<Limb>, n: nat) {
    && n / 32 < |s|
    && (forall m :: 0 <= m < n / 32 ==> s[m] == 0)
    && Mod(s[n / 32], Pow2(n % 32 + 1)) == 0
  }

  lemma ClearBelowStart(s: seq<Limb>, n: nat)
    requires n < 32 * |s| && forall i :: 0 <= i < |s| ==> s[i] == 0
    ensures ClearBelow(s, n)
  {
    hide Mod, Pow2;
    Multiple(0, Pow2(n % 32 + 1));
  }

  lemma ClearBelowNext(s: seq<Limb>, n: nat)
    requires ClearBelow(s, n)
    ensures n > 0 ==> ClearBelow(s, n - 1)
  {
    var r := n % 32;
    assert Pow2(r + 1) == 2 * Pow2(r);
    hide Mod, Pow2;
    if n > 0 {
      if r > 0 {
        assert (n - 1) / 32 == n / 32 && (n - 1) % 32 + 1 == r;
        HalfDivides(s[n / 32], Pow2(r));
      } else {
        Multiple(0, Pow2(32));
      }
    }
  }

  lemma HalfDivides(x: nat, p: nat)
    requires p > 0 && Mod(x, 2 * p) == 0
    ensures Mod(x, p) == 0
  {
    var q := x / (2 * p);
    DivModSplit(x, 2 * p);
    assert q * (2 * p) == (2 * q) * p;
    MulDivExact(2 * q, p);
  }

  lemma BitFree(s: seq<Limb>, n: nat)
    requires ClearBelow(s, n)
    ensures Or(s[n / 32], Pow2(n % 32)) == s[n / 32] + Pow2(n % 32) < BASE
    ensures Value(s[n / 32 := s[n / 32] + Pow2(n % 32)]) == Value(s) + Pow2(n)
    ensures n > 0 ==> ClearBelow(s[n / 32 := s[n / 32] + Pow2(n % 32)], n - 1)
  {
    var j, r := n / 32, n % 32;
    Pow2Add(r, 32 * j);
    assert Pow2(n) == Pow2(r) * Place(j);
    hide Place, Value, Pow2, Mod, Or;
    LimbBit(s[j], r);
    ValueSet(s, j, s[j] + Pow2(r));
    if n > 0 {
      if r > 0 {
        assert (n - 1) / 32 == j && (n - 1) % 32 + 1 == r;
      } else {
        Multiple(0, Pow2(32));
      }
    }
  }

  lemma LimbBit(x: Limb, r: nat)
    requires r < 32 && Mod(x, Pow2(r + 1)) == 0
    ensures Or(x, Pow2(r)) == x + Pow2(r) < BASE && Mod(x + Pow2(r), Pow2(r)) == 0
  {
    OrDisjoint(Pow2(r), x, r + 1);
    SplitBase(r + 1);
    FreeBit(x, Pow2(r), Pow2(31 - r));
  }

  lemma FreeBit(x: Limb, p: nat, q: nat)
    requires p > 0 && q > 0 && Mod(x, 2 * p) == 0 && (2 * p) * q == BASE
    ensures x + p < BASE && Mod(x + p, p) == 0
  {
    hide Mod;
    var k := Div(x, 2 * p);
    SplitLimb(x, 2 * p);
    RightDown(x, 2 * p, q);
    hide Div;
    MulLe(k + 1, q, 2 * p);
    Distribute3(k, 1, 0, 2 * p);
    assert x + p == (2 * k + 1) * p by {
      Distribute3(2 * k, 1, 0, p);
      assert k * (2 * p) == (2 * k) * p;
    }
    Multiple(2 * k + 1, p);
  }

  lemma Multiple(a: nat, p: nat)
    requires p > 0
    ensures Mod(a * p, p) == 0
  {
    MulDivExact(a, p);
  }

  lemma ValueSet(s: seq<Limb>, j: nat, x: Limb)
    requires j < |s|
    ensures Value(s[j := x]) == Value(s) + (x - s[j]) * Place(j)
  {
    hide Place, Value;
    var t := s[j := x];
    ValueStep(s, j);
    ValueStep(t, j);
    assert t[..j] == s[..j] && t[j + 1..] == s[j + 1..];
    SameHigh(t, s, j + 1);
    Distribute3(x, 0 - s[j] as int, 0, Place(j));
  }

  lemma TooSmall(x: nat, y: nat, numBits: nat, divBits: nat)
    requires divBits > numBits && x < Pow2(numBits) && Pow2(divBits - 1) <= y
    ensures y > 0 && Div(x, y) == 0
  {
    Pow2Monotone(numBits, divBits - 1);
    DivModUnique(x, y, 0, x);
  }

  lemma DivideStart(x: nat, y: nat, numBits: nat, divBits: nat, w: nat)
    requires 0 < divBits <= numBits <= 32 * w && x < Pow2(numBits) && Pow2(divBits - 1) <= y < Pow2(divBits)
    ensures y > 0 && numBits - divBits < 32 * w
    ensures x < y * Pow2(numBits - divBits + 1)
    ensures Mod(y * Pow2(numBits - divBits), Place(w)) == y * Pow2(numBits - divBits)
  {
    var s := numBits - divBits;
    Pow2Add(divBits - 1, s + 1);
    Pow2Add(divBits, s);
    MulLe(Pow2(divBits - 1), y, Pow2(s + 1));
    MulLe(y + 1, Pow2(divBits), Pow2(s));
    Distribute3(y, 1, 0, Pow2(s));
    Pow2Monotone(numBits, 32 * w);
    MulLe(0, y, Pow2(s));
    DivModUnique(y * Pow2(s), Place(w), 0, y * Pow2(s));
  }

  lemma Doubling(y: nat, s: nat)
    ensures y * Pow2(s + 1) == 2 * (y * Pow2(s))
  {
    assert y * (2 * Pow2(s)) == 2 * (y * Pow2(s));
  }

  lemma Difference(n: nat, d: nat, s: seq<Limb>)
    requires d <= n < Place(|s|)
    ensures Mod(n - d, Place(|s|)) == n - d
  {
    DivModUnique(n - d, Place(|s|), 0, n - d);
  }

  lemma DivideStep(x: nat, y: nat, q: nat, n: nat, s: nat)
    requires x == q * y + n && y * Pow2(s) <= n < 2 * (y * Pow2(s))
    ensures x == (q + Pow2(s)) * y + (n - y * Pow2(s)) && n - y * Pow2(s) < y * Pow2(s)
  {
    Distribute3(q, Pow2(s), 0, y);
  }

  lemma Halve(y: nat, s: nat)
    ensures s > 0 ==> Div(y * Pow2(s), Pow2(1)) == y * Pow2(s - 1)
  {
    if s > 0 {
      assert y * (2 * Pow2(s - 1)) == (y * Pow2(s - 1)) * 2;
      assert Pow2(1) == 2;
    }
  }

  lemma DivideEnd(x: nat, y: nat, q: nat, r: nat)
    requires y > 0 && x == q * y + r && r < y * Pow2(0)
    ensures q == Div(x, y)
  {
    DivModUnique(x, y, q, r);
  }

  lemma ShiftedDown(a: seq<Limb>, shift: nat)
    requires 32 * |a| <= shift
    ensures Div(Value(a), Pow2(shift)) == 0
  {
    ValueBound(a);
    Pow2Monotone(32 * |a|, shift);
    DivModUnique(Value(a), Pow2(shift), 0, Value(a));
  }

  lemma ShiftedOut(v: nat, w: nat, shift: nat)
    requires 32 * w <= shift
    ensures Mod(v * Pow2(shift), Place(w)) == 0
  {
    Pow2Add(32 * w, shift - 32 * w);
    var m, q := Place(w), Pow2(shift - 32 * w);
    assert v * (m * q) == (v * q) * m;
    DivModUnique(v * (m * q), m, v * q, 0);
  }

  /** The final carry is what the width cannot hold. */
  lemma Total(s: seq<Limb>, v: nat, carry: int)
    requires Value(s) + carry * Place(|s|) == v
    ensures Value(s) == Mod(v, Place(|s|))
  {
    hide Place, Mod, Div;
    ValueBound(s);
    Remainder(v, Value(s), carry, Place(|s|));
  }
}
