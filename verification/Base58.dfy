/** Base58 text for byte strings: the alphabet, encoding and decoding in place, and that each undoes the other. */
module Base58 {
  import opened Wrappers
  import opened Bits
  import opened Radix

  /** Bytes and characters are numbers below 256. */
  type Bytes = s: seq<int> | Digits(s, 256)

  const ONE := 49

  // ---------- the alphabet ----------

  function CharOf(d: int): int {
    if d < 9 then 49 + d
    else if d < 17 then 65 + d - 9
    else if d < 22 then 74 + d - 17
    else if d < 33 then 80 + d - 22
    else if d < 44 then 97 + d - 33
    else 109 + d - 44
  }

  /** The digit of a character, or -1. */
  function DigitOf(c: int): int {
    if 49 <= c <= 57 then c - 49
    else if 65 <= c <= 72 then c - 65 + 9
    else if 74 <= c <= 78 then c - 74 + 17
    else if 80 <= c <= 90 then c - 80 + 22
    else if 97 <= c <= 107 then c - 97 + 33
    else if 109 <= c <= 122 then c - 109 + 44
    else -1
  }

  predicate IsSpace(c: int) {
    c == 32 || c == 12 || c == 10 || c == 13 || c == 9 || c == 11
  }

  /** The alphabet: digits and letters in ascending order of their codes, without 0, I, O and l. */
  lemma AlphabetIs(c: int, d: int, e: int)
    ensures DigitOf(c) >= 0 <==>
      (48 <= c <= 57 || 65 <= c <= 90 || 97 <= c <= 122)
      && c != '0' as int && c != 'I' as int && c != 'O' as int && c != 'l' as int
    ensures 0 <= d < e < 58 ==> CharOf(d) < CharOf(e)
  {
  }

  lemma CharDigit(d: int)
    requires 0 <= d < 58
    ensures DigitOf(CharOf(d)) == d && !IsSpace(CharOf(d)) && 0 < CharOf(d) < 256 && (CharOf(d) == ONE <==> d == 0)
  {
  }

  lemma DigitChar(c: int)
    requires DigitOf(c) != -1
    ensures 0 <= DigitOf(c) < 58 && CharOf(DigitOf(c)) == c && !IsSpace(c) && c != 0
  {
  }

  // ---------- the buffers are large enough ----------

  lemma PowersOf58()
    ensures Pow(58, 11) == 24986644000165537792 && Pow(58, 22) == 24986644000165537792 * 24986644000165537792
  {
    assert Pow(58, 3) == 195112;
    PowAdd(58, 3, 3);
    PowAdd(58, 3, 2);
    assert Pow(58, 2) == 3364;
    hide Pow;
    PowAdd(58, 5, 6);
    PowAdd(58, 11, 11);
  }

  lemma PowersOf2()
    ensures Pow(256, 8) == 0x1_0000_0000 * 0x1_0000_0000 && Pow(2, 8) == 256
    ensures Pow(2, 129) == 2 * (0x1_0000_0000 * 0x1_0000_0000 * 0x1_0000_0000 * 0x1_0000_0000)
  {
    assert Pow(256, 2) == 65536 && Pow(2, 4) == 16 && Pow(2, 1) == 2;
    hide Pow;
    PowAdd(256, 2, 2);
    PowAdd(256, 4, 4);
    PowAdd(2, 4, 4);
    PowAdd(2, 8, 8);
    PowAdd(2, 16, 16);
    PowAdd(2, 32, 32);
    PowAdd(2, 64, 64);
    PowAdd(2, 1, 128);
  }

  /** n bytes fit the Base58 buffer. */
  lemma EncodeFits(n: nat)
    ensures Pow(256, n) <= Pow(58, n * 138 / 100 + 1)
  {
    hide Pow;
    PowersOf58();
    PowersOf2();
    PowRatio(256, 8, 58, 11, n, n * 138 / 100 + 1);
  }

  /** m characters fit the byte buffer. */
  lemma DecodeFits(m: nat)
    ensures Pow(58, m) <= Pow(256, m * 733 / 1000 + 1)
  {
    hide Pow;
    PowersOf58();
    PowersOf2();
    var k := m * 733 / 1000 + 1;
    PowRatio(58, 22, 2, 129, m, 8 * k);
    PowPow(2, 8, k);
  }

  // ---------- encoding ----------

  /** How many elements at the front equal `x`. */
  function Lead(s: seq<int>, x: int): (n: nat)
    ensures n <= |s| && (n < |s| ==> s[n] != x) && forall i :: 0 <= i < n ==> s[i] == x
  {
    if s == [] || s[0] != x then 0 else 1 + Lead(s[1..], x)
  }

  lemma {:induction false} LeadIs(s: seq<int>, x: int, n: nat)
    requires n <= |s| && (n < |s| ==> s[n] != x) && forall i :: 0 <= i < n ==> s[i] == x
    ensures Lead(s, x) == n
  {
    if n > 0 {
      LeadIs(s[1..], x, n - 1);
    }
  }

  function Repeat(x: int, n: nat): (s: seq<int>)
    ensures |s| == n && forall i :: 0 <= i < n ==> s[i] == x
  {
    seq(n, _ => x)
  }

  function Chars(ds: seq<int>): (s: seq<int>)
    ensures |s| == |ds| && forall i :: 0 <= i < |ds| ==> s[i] == CharOf(ds[i])
  {
    seq(|ds|, i requires 0 <= i < |ds| => CharOf(ds[i]))
  }

  /** A one for every leading zero byte, then the rest as a number in base 58. */
  function EncodeText(input: Bytes): seq<int> {
    var z := Lead(input, 0);
    ValueBound(input[z..], 256);
    Repeat(ONE, z) + Chars(ToDigits(Value(input[z..], 256), 58))
  }

  method EncodeBase58(input: Bytes) returns (str: seq<int>)
    ensures str == EncodeText(input)
  {
    hide CharOf, Value, Pow, ToDigits;
    var zeroes := 0;
    while zeroes < |input| && input[zeroes] == 0
      invariant 0 <= zeroes <= |input| && forall i :: 0 <= i < zeroes ==> input[i] == 0
    {
      zeroes := zeroes + 1;
    }
    LeadIs(input, 0, zeroes);
    var rest := input[zeroes..];
    var b58, length := ToBase58(rest);
    ghost var ds := b58[b58.Length - length..];
    var it := SkipZeros(b58, b58.Length - length);
    str := Repeat(ONE, zeroes);
    while it < b58.Length
      invariant b58.Length - length <= it <= b58.Length
      invariant str == Repeat(ONE, zeroes) + Chars(ds)[..it - (b58.Length - length)]
    {
      str := str + [CharOf(b58[it])];
      it := it + 1;
    }
  }

  method SkipZeros(b: array<int>, from: nat) returns (it: nat)
    requires from <= b.Length
    ensures from <= it <= b.Length && (it < b.Length ==> b[it] != 0)
    ensures forall k :: from <= k < it ==> b[k] == 0
  {
    it := from;
    while it < b.Length && b[it] == 0
      invariant from <= it <= b.Length && forall k :: from <= k < it ==> b[k] == 0
    {
      it := it + 1;
    }
  }

  /** The buffer for a string of bytes holds its number in base 58; no carry is ever lost. */
  method ToBase58(rest: Bytes) returns (b58: array<int>, length: nat)
    ensures fresh(b58) && Held(b58[..], 58, length)
    ensures Value(rest, 256) >= 0 && b58[b58.Length - length..] == ToDigits(Value(rest, 256), 58)
  {
    hide Value, Pow, ToDigits;
    var size := |rest| * 138 / 100 + 1;
    b58 := new int[size](_ => 0);
    length := 0;
    ZeroValue(b58[..], 58);
    NoValue(rest, 256);
    for i := 0 to |rest|
      invariant Held(b58[..], 58, length) && Value(b58[..], 58) == Value(rest[..i], 256)
    {
      PrefixFits(rest, i, 256, 58, size);
      EncodeFits(|rest|);
      length := MultiplyAdd(b58, 58, 256, rest[i], length);
    }
    assert rest[..|rest|] == rest;
    HeldDigits(b58[..], 58, length);
  }

  lemma NoValue(s: seq<int>, base: nat)
    ensures Value(s[..0], base) == 0
  {
  }

  /** Taking in the next digit stays below the bound of the whole. */
  lemma PrefixFits(s: seq<int>, i: nat, base: nat, other: nat, size: nat)
    requires base > 1 && other > 0 && Digits(s, base) && i < |s|
    ensures Value(s[..i + 1], base) == base * Value(s[..i], base) + s[i]
    ensures Pow(base, |s|) <= Pow(other, size) ==> Value(s[..i + 1], base) < Pow(other, size)
  {
    hide Pow;
    assert s[..i + 1][..i] == s[..i];
    assert Value(s[..i], base) * base == base * Value(s[..i], base);
    hide Value;
    ValueBound(s[..i + 1], base);
    PowGrows(base, i + 1, |s|);
  }

  /** The held digits are the shortest digits of the value. */
  lemma HeldDigits(s: seq<int>, base: nat, length: nat)
    requires base > 1 && Held(s, base, length)
    ensures Value(s, base) >= 0 && s[|s| - length..] == ToDigits(Value(s, base), base)
  {
    hide Value, ToDigits;
    LowPart(s, base, length);
    DigitsUnique(s[|s| - length..], base);
  }

  // ---------- decoding ----------

  /** The position of the first character that is no space. */
  function First(s: seq<int>): (n: nat)
    ensures n <= |s| && (n < |s| ==> !IsSpace(s[n])) && forall i :: 0 <= i < n ==> IsSpace(s[i])
  {
    if s == [] || !IsSpace(s[0]) then 0 else 1 + First(s[1..])
  }

  /** One past the position of the last character that is no space. */
  function Last(s: seq<int>): (n: nat)
    ensures n <= |s| && (n > 0 ==> !IsSpace(s[n - 1])) && forall i :: n <= i < |s| ==> IsSpace(s[i])
  {
    if s == [] || !IsSpace(s[|s| - 1]) then |s| else Last(s[..|s| - 1])
  }

  /** The text without the spaces around it. */
  function Trim(s: seq<int>): seq<int> {
    if First(s) >= Last(s) then [] else s[First(s)..Last(s)]
  }

  predicate InAlphabet(s: seq<int>) {
    forall i :: 0 <= i < |s| ==> DigitOf(s[i]) != -1
  }

  function DigitsOf(s: seq<int>): (r: seq<int>)
    requires InAlphabet(s)
    ensures |r| == |s| && Digits(r, 58) && forall i :: 0 <= i < |s| ==> r[i] == DigitOf(s[i])
  {
    seq(|s|, i requires 0 <= i < |s| => DigitOf(s[i]))
  }

  /** A zero byte for every leading one, then the rest as a number in base 256. */
  function DecodeBody(body: seq<int>): Bytes
    requires InAlphabet(body)
  {
    var z := Lead(body, ONE);
    ValueBound(DigitsOf(body[z..]), 58);
    Repeat(0, z) + ToDigits(Value(DigitsOf(body[z..]), 58), 256)
  }

  function DecodeText(str: seq<int>, maxLen: nat): Option<Bytes> {
    if InAlphabet(Trim(str)) && |DecodeBody(Trim(str))| <= maxLen then Some(DecodeBody(Trim(str))) else None
  }

  lemma TrimIs(s: seq<int>, a: nat, e: nat)
    requires a <= e <= |s| && (forall i :: 0 <= i < a ==> IsSpace(s[i])) && (forall i :: e <= i < |s| ==> IsSpace(s[i]))
    requires a < e ==> !IsSpace(s[a]) && !IsSpace(s[e - 1])
    ensures Trim(s) == s[a..e]
  {
  }

  /** A character that is no space, and all between two such, are part of the trimmed text. */
  lemma InTrim(s: seq<int>, p: nat, q: nat)
    requires p <= q < |s| && !IsSpace(s[q]) && exists a :: 0 <= a <= p && !IsSpace(s[a])
    ensures s[p] in Trim(s)
  {
    var a :| 0 <= a <= p && !IsSpace(s[a]);
    assert First(s) <= a && q < Last(s);
    assert Trim(s)[p - First(s)] == s[p];
  }

  // ---------- why decoding may stop early ----------

  /** A byte or space position `a` starts the text. */
  predicate StartsAt(s: seq<int>, a: nat) {
    a <= |s| && (forall i :: 0 <= i < a ==> IsSpace(s[i])) && (a < |s| ==> !IsSpace(s[a]))
  }

  lemma BadCharacter(s: seq<int>, p: nat, maxLen: nat)
    requires p < |s| && !IsSpace(s[p]) && DigitOf(s[p]) == -1
    ensures DecodeText(s, maxLen) == None
  {
    InTrim(s, p, p);
  }

  lemma InnerSpace(s: seq<int>, a: nat, p: nat, q: nat, maxLen: nat)
    requires a <= p < q < |s| && !IsSpace(s[a]) && IsSpace(s[p]) && !IsSpace(s[q])
    ensures DecodeText(s, maxLen) == None
  {
    InTrim(s, p, q);
  }

  lemma {:induction false} LengthMonotone(v: nat, w: nat, base: nat)
    requires base > 1 && v <= w
    ensures |ToDigits(v, base)| <= |ToDigits(w, base)|
  {
    hide Div, Mod;
    if v > 0 {
      Smaller(v, base);
      Smaller(w, base);
      DivMonotone(v, w, base);
      LengthMonotone(Div(v, base), Div(w, base), base);
    }
  }

  lemma DivMonotone(v: nat, w: nat, base: nat)
    requires base > 1 && v <= w
    ensures Div(v, base) <= Div(w, base)
  {
    DivModSplit(v, base);
    DivModSplit(w, base);
    var x, y := v / base, w / base;
    if y < x {
      MulMonotone(y + 1, base, x, base);
    }
  }

  lemma {:induction false} PrefixSmaller(s: seq<int>, k: nat, base: nat)
    requires base > 0 && Digits(s, base) && k <= |s|
    ensures 0 <= Value(s[..k], base) <= Value(s, base)
  {
    ValueBound(s[..k], base);
    if k == |s| {
      assert s[..k] == s;
    } else {
      var n := |s| - 1;
      PrefixSmaller(s[..n], k, base);
      assert s[..n][..k] == s[..k];
      MulMonotone(Value(s[..n], base), 1, Value(s[..n], base), base);
    }
  }

  lemma TooManyOnes(s: seq<int>, a: nat, z: nat, maxLen: nat)
    requires StartsAt(s, a) && a + z <= |s| && (forall i :: a <= i < a + z ==> s[i] == ONE) && z > maxLen
    ensures DecodeText(s, maxLen) == None
  {
    hide ToDigits, Value;
    if InAlphabet(Trim(s)) {
      var body := Trim(s);
      assert First(s) == a && Last(s) >= a + z by {
        assert !IsSpace(s[a + z - 1]) && !IsSpace(s[a]);
      }
      assert forall i :: 0 <= i < z ==> body[i] == s[a + i];
      assert Lead(body, ONE) >= z;
    }
  }

  /** The trimmed text runs from its start at least to any character that is no space. */
  lemma TrimFrom(s: seq<int>, a: nat, e: nat)
    requires StartsAt(s, a) && a < e <= |s| && !IsSpace(s[e - 1])
    ensures e - a <= |Trim(s)| <= |s| - a && Trim(s) == s[a..a + |Trim(s)|]
  {
    assert First(s) == a && Last(s) >= e;
  }

  lemma TooLong(s: seq<int>, a: nat, z: nat, e: nat, maxLen: nat)
    requires StartsAt(s, a) && a + z < e && AreDigits(s, a + z, e)
    requires (forall i :: a <= i < a + z ==> s[i] == ONE) && s[a + z] != ONE
    requires z + |ToDigits(ReadValue(s, a + z, e), 256)| > maxLen
    ensures DecodeText(s, maxLen) == None
  {
    hide ToDigits, Value, Trim, DigitOf;
    var body := Trim(s);
    DigitChar(s[e - 1]);
    TrimFrom(s, a, e);
    if InAlphabet(body) {
      LeadIs(body, ONE, z);
      var all, some := DigitsOf(body[z..]), DigitsOf(s[a + z..e]);
      var k := e - a - z;
      assert body[z..][..k] == s[a + z..e];
      assert all[..k] == some;
      PrefixSmaller(all, k, 58);
      LengthMonotone(Value(some, 58), Value(all, 58), 256);
    }
  }

  // ---------- the decoder ----------

  method DecodeBase58(str: Bytes, maxLen: nat) returns (r: Option<Bytes>)
    ensures r == DecodeText(str, maxLen)
  {
    hide ToDigits, Value, Pow, Lead, First, Last, DecodeText, ReadValue, AreDigits;
    var nul := ContainsNul(str);
    if nul.Some? {
      BadCharacter(str, nul.value, maxLen);
      return None;
    }
    var a := 0;
    while a < |str| && IsSpace(str[a])
      invariant 0 <= a <= |str| && forall i :: 0 <= i < a ==> IsSpace(str[i])
    {
      a := a + 1;
    }
    var zeroes := 0;
    while a + zeroes < |str| && str[a + zeroes] == ONE
      invariant 0 <= zeroes <= maxLen && a + zeroes <= |str| && forall i :: a <= i < a + zeroes ==> str[i] == ONE
    {
      zeroes := zeroes + 1;
      if zeroes > maxLen {
        TooManyOnes(str, a, zeroes, maxLen);
        return None;
      }
    }
    var bytes, p := FromBase58(str, a, zeroes, maxLen);
    if bytes.None? {
      return None;
    }
    ghost var e := p;
    while p < |str| && IsSpace(str[p])
      invariant e <= p <= |str| && forall i :: e <= i < p ==> IsSpace(str[i])
    {
      p := p + 1;
    }
    if p < |str| {
      if e < p {
        InnerSpace(str, a, e, p, maxLen);
      }
      return None;
    }
    BodyDecodes(str, a, zeroes, e, maxLen);
    r := Some(Repeat(0, zeroes) + bytes.value);
  }

  method ContainsNul(str: seq<int>) returns (at: Option<nat>)
    ensures at.None? ==> forall i :: 0 <= i < |str| ==> str[i] != 0
    ensures at.Some? ==> at.value < |str| && str[at.value] == 0
  {
    for i := 0 to |str|
      invariant forall k :: 0 <= k < i ==> str[k] != 0
    {
      if str[i] == 0 {
        return Some(i);
      }
    }
    at := None;
  }

  /** The text between the spaces, decoded. */
  lemma BodyDecodes(s: seq<int>, a: nat, z: nat, e: nat, maxLen: nat)
    requires StartsAt(s, a) && a + z <= e <= |s| && (forall i :: e <= i < |s| ==> IsSpace(s[i]))
    requires (forall i :: a <= i < a + z ==> s[i] == ONE) && (a + z < e ==> s[a + z] != ONE)
    requires AreDigits(s, a + z, e) && z + |ToDigits(ReadValue(s, a + z, e), 256)| <= maxLen
    ensures DecodeText(s, maxLen) == Some(Repeat(0, z) + ToDigits(ReadValue(s, a + z, e), 256))
  {
    hide ToDigits, Value, Pow, First, Last;
    if a + z < e {
      DigitChar(s[e - 1]);
    }
    TrimIs(s, a, e);
    var body := s[a..e];
    LeadIs(body, ONE, z);
    assert body[z..] == s[a + z..e];
  }

  /** The characters from `start` to `e` are digits. */
  predicate AreDigits(s: seq<int>, start: nat, e: nat) {
    start <= e <= |s| && forall i :: start <= i < e ==> DigitOf(s[i]) != -1
  }

  function ReadValue(s: seq<int>, start: nat, e: nat): (v: nat)
    requires AreDigits(s, start, e)
  {
    ValueBound(DigitsOf(s[start..e]), 58);
    Value(DigitsOf(s[start..e]), 58)
  }

  /** Reads digits up to a space or the end, multiplying into a byte buffer; no carry is ever lost. */
  method FromBase58(str: Bytes, a: nat, zeroes: nat, maxLen: nat) returns (bytes: Option<seq<int>>, e: nat)
    requires StartsAt(str, a) && a + zeroes <= |str| && zeroes <= maxLen
    requires (forall i :: a <= i < a + zeroes ==> str[i] == ONE) && (a + zeroes < |str| ==> str[a + zeroes] != ONE)
    ensures bytes.None? ==> DecodeText(str, maxLen) == None
    ensures bytes.Some? ==>
      && a + zeroes <= e <= |str| && AreDigits(str, a + zeroes, e) && (e < |str| ==> IsSpace(str[e]))
      && bytes.value == ToDigits(ReadValue(str, a + zeroes, e), 256) && zeroes + |bytes.value| <= maxLen
  {
    hide ToDigits, Value, Pow, DecodeText, ReadValue, AreDigits, Held, DigitOf, StartsAt;
    var start := a + zeroes;
    var size := (|str| - start) * 733 / 1000 + 1;
    var b256 := new int[size](_ => 0);
    var length: nat := 0;
    e := start;
    EmptyBuffer(b256[..], str, start);
    while e < |str| && !IsSpace(str[e])
      invariant AreDigits(str, start, e) && Held(b256[..], 256, length) && zeroes + length <= maxLen
      invariant start <= e <= |str| && Value(b256[..], 256) == ReadValue(str, start, e)
    {
      var carry := DigitOf(str[e]);
      if carry == -1 {
        BadCharacter(str, e, maxLen);
        return None, e;
      }
      TakesOne(str, start, e, size);
      length := MultiplyAdd(b256, 256, 58, carry, length);
      e := e + 1;
      if length + zeroes > maxLen {
        HeldDigits(b256[..], 256, length);
        BufferEnd(b256[..], length, 256);
        TooLong(str, a, zeroes, e, maxLen);
        return None, e;
      }
    }
    HeldDigits(b256[..], 256, length);
    BufferEnd(b256[..], length, 256);
    bytes := Some(b256[size - length..]);
  }

  lemma EmptyBuffer(b: seq<int>, s: seq<int>, start: nat)
    requires start <= |s| && forall i :: 0 <= i < |b| ==> b[i] == 0
    ensures Held(b, 256, 0) && AreDigits(s, start, start) && Value(b, 256) == ReadValue(s, start, start)
  {
    ZeroValue(b, 256);
    assert DigitsOf(s[start..start]) == [];
  }

  lemma BufferEnd(b: seq<int>, length: nat, base: nat)
    requires Held(b, base, length)
    ensures length <= |b|
  {
  }

  /** One more digit still fits the buffer for all the text that is left. */
  lemma TakesOne(s: seq<int>, start: nat, e: nat, size: nat)
    requires AreDigits(s, start, e) && e < |s| && size == (|s| - start) * 733 / 1000 + 1 && DigitOf(s[e]) != -1
    ensures 0 <= DigitOf(s[e]) && AreDigits(s, start, e + 1)
    ensures var v := 58 * ReadValue(s, start, e) + DigitOf(s[e]); ReadValue(s, start, e + 1) == v < Pow(256, size)
  {
    DigitChar(s[e]);
    var ds := DigitsOf(s[start..e + 1]);
    var k := e - start;
    assert ds[..k] == DigitsOf(s[start..e]) && ds[..k + 1] == ds;
    hide Pow, Value;
    PrefixFits(ds, k, 58, 256, size);
    DecodeFits(|s| - start);
    PowGrows(58, k + 1, |s| - start);
  }
}
