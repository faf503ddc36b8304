/** Encoding and decoding of Bech32 and Bech32m strings, and that each undoes the other. */
module Bech32Codec {
  import opened Wrappers
  import opened Bech32Poly
  import opened Bech32Field
  import opened Bech32

  // ---------- checksums ----------

  function High(c: bv8): bv8 { c >> 5 }

  function Low5(c: bv8): bv8 { c & 31 }

  function HighBits(hrp: seq<bv8>): (r: seq<bv8>)
    ensures |r| == |hrp|
  {
    seq(|hrp|, i requires 0 <= i < |hrp| => High(hrp[i]))
  }

  function LowBits(hrp: seq<bv8>): (r: seq<bv8>)
    ensures |r| == |hrp|
  {
    seq(|hrp|, i requires 0 <= i < |hrp| => Low5(hrp[i]))
  }

  /** The checksum input: the high bits of the prefix, a zero, its low bits, the data. */
  function Expand(hrp: seq<bv8>, values: Symbols): Symbols {
    AllSymbols(hrp);
    HighBits(hrp) + [0] + LowBits(hrp) + values
  }

  lemma AllSymbols(hrp: seq<bv8>)
    ensures forall i :: 0 <= i < |hrp| ==> HighBits(hrp)[i] < 32 && LowBits(hrp)[i] < 32
  {
  }

  /** The high and the low bits of a character. */
  predicate Halves(high: bv8, low: bv8, c: bv8) {
    high < 8 && low < 32 && (high << 5) | low == c
  }

  lemma HalvesOf(c: bv8)
    ensures Halves(High(c), Low5(c), c)
  {
  }

  /** The parts of the prefix stand on both sides of a zero, each in order, and the data comes last. */
  method PreparePolynomialCoefficients(hrp: seq<bv8>, values: Symbols) returns (ret: seq<bv8>)
    ensures ret == Expand(hrp, values)
    ensures |ret| == 2 * |hrp| + 1 + |values| && ret[|hrp|] == 0 && ret[2 * |hrp| + 1..] == values
    ensures forall i :: 0 <= i < |hrp| ==> Halves(ret[i], ret[|hrp| + 1 + i], hrp[i])
  {
    hide High, Low5, Halves;
    ret := [];
    for i := 0 to |hrp|
      invariant ret == HighBits(hrp)[..i]
    {
      ret := ret + [High(hrp[i])];
    }
    ret := ret + [0];
    for i := 0 to |hrp|
      invariant ret == HighBits(hrp) + [0] + LowBits(hrp)[..i]
    {
      ret := ret + [Low5(hrp[i])];
    }
    ret := ret + values;
    forall i | 0 <= i < |hrp|
      ensures Halves(ret[i], ret[|hrp| + 1 + i], hrp[i])
    {
      HalvesOf(hrp[i]);
      assert ret[i] == High(hrp[i]) && ret[|hrp| + 1 + i] == Low5(hrp[i]);
    }
  }

  function Residue(hrp: seq<bv8>, values: Symbols): bv32 {
    PolyFrom(1, Expand(hrp, values))
  }

  function Verify(hrp: seq<bv8>, values: Symbols): Option<Encoding> {
    var check := Residue(hrp, values);
    if check == EncodingConstant(BECH32) then Some(BECH32)
    else if check == EncodingConstant(BECH32M) then Some(BECH32M)
    else None
  }

  method VerifyChecksum(hrp: seq<bv8>, values: Symbols) returns (r: Option<Encoding>)
    ensures r == Verify(hrp, values)
  {
    var enc := PreparePolynomialCoefficients(hrp, values);
    hide PolyFrom;
    var check := PolyMod(enc);
    if check == EncodingConstant(BECH32) {
      return Some(BECH32);
    }
    if check == EncodingConstant(BECH32M) {
      return Some(BECH32M);
    }
    r := None;
  }

  const SIX_ZEROS: Symbols := [0, 0, 0, 0, 0, 0]

  function Checksum(encoding: Encoding, hrp: seq<bv8>, values: Symbols): (r: Symbols)
    ensures |r| == CHECKSUM_SIZE
  {
    Unpack(Xor(PolyFrom(1, Expand(hrp, values) + SIX_ZEROS), EncodingConstant(encoding)))
  }

  method CreateChecksum(encoding: Encoding, hrp: seq<bv8>, values: Symbols) returns (ret: Symbols)
    ensures ret == Checksum(encoding, hrp, values)
  {
    var enc := PreparePolynomialCoefficients(hrp, values);
    hide PolyFrom, Xor, Unpack, Group;
    enc := enc + SIX_ZEROS;
    var rest := PolyMod(enc);
    var mod := Xor(rest, EncodingConstant(encoding));
    ret := [];
    for i := 0 to CHECKSUM_SIZE
      invariant |Unpack(mod)| == 6 && ret == Unpack(mod)[..i]
    {
      GroupOf(mod, i);
      ret := ret + [Group(mod, i)];
    }
  }

  /** The i-th of six 5-bit groups, the highest first. */
  function Group(m: bv32, i: nat): bv8
    requires i < 6
  {
    if i == 0 then ((m >> 25) & 31) as bv8
    else if i == 1 then ((m >> 20) & 31) as bv8
    else if i == 2 then ((m >> 15) & 31) as bv8
    else if i == 3 then ((m >> 10) & 31) as bv8
    else if i == 4 then ((m >> 5) & 31) as bv8
    else (m & 31) as bv8
  }

  lemma GroupOf(m: bv32, i: nat)
    requires i < 6
    ensures Group(m, i) == Unpack(m)[i]
  {
    if i == 0 {
    } else if i == 1 {
    } else if i == 2 {
    } else if i == 3 {
    } else if i == 4 {
    } else {
      assert i == 5;
    }
  }

  lemma ExpandMore(hrp: seq<bv8>, values: Symbols, more: Symbols)
    ensures Expand(hrp, values + more) == Expand(hrp, values) + more
  {
  }

  /** With six symbols appended, the residue is that with zeros plus the symbols themselves. */
  lemma ResidueOf(hrp: seq<bv8>, values: Symbols, d: Symbols)
    requires |d| == 6
    ensures Residue(hrp, values + d) == Xor(PolyFrom(1, Expand(hrp, values) + SIX_ZEROS), Pack(d))
  {
    var e := Expand(hrp, values);
    ExpandMore(hrp, values, d);
    hide PolyFrom, Xor, Pack, Expand, Xor8;
    PolyAppend(1, e, d);
    PolyAppend(1, e, SIX_ZEROS);
    SixLinear(PolyFrom(1, e), d, SIX_ZEROS);
    forall i | 0 <= i < 6
      ensures Diff(d, SIX_ZEROS)[i] == d[i]
    {
      XorSymbols(d[i], 0);
    }
    assert Diff(d, SIX_ZEROS) == d;
  }

  lemma XorBack(z: bv32, k: bv32, p: bv32)
    ensures Xor(z, p) == k <==> p == Xor(z, k)
  {
    hide Xor;
    XorAssoc(z, z, p);
    XorAssoc(z, z, k);
    XorAssoc(0, p, 0);
    XorAssoc(0, k, 0);
    XorZero(z);
    XorZero(p);
    XorZero(k);
  }

  lemma XorFits(z: bv32, k: bv32)
    requires z < 0x4000_0000 && k < 0x4000_0000
    ensures Xor(z, k) < 0x4000_0000
  {
  }

  lemma ZerosBound(hrp: seq<bv8>, values: Symbols)
    ensures PolyFrom(1, Expand(hrp, values) + SIX_ZEROS) < 0x4000_0000
  {
    hide PolyFrom;
    PolyBound(1, Expand(hrp, values) + SIX_ZEROS);
  }

  lemma VerifyIff(hrp: seq<bv8>, values: Symbols, encoding: Encoding)
    ensures Verify(hrp, values) == Some(encoding) <==> Residue(hrp, values) == EncodingConstant(encoding)
  {
    hide Residue;
  }

  /** A string is valid for an encoding just when its polynomial leaves the constant of the encoding as remainder. */
  lemma VerifyIsRemainder(hrp: seq<bv8>, values: Symbols, encoding: Encoding)
    ensures Verify(hrp, values) == Some(encoding)
       <==> IsRemainder(WithOne(Expand(hrp, values)), Unpack(EncodingConstant(encoding)))
  {
    var e, k := Expand(hrp, values), EncodingConstant(encoding);
    hide PolyFrom, Pack, Unpack, Verify, Expand, IsRemainder;
    VerifyIff(hrp, values, encoding);
    ChecksumIsRemainder(e, Unpack(k));
    PolyBound(1, e);
    PackUnpack(PolyFrom(1, e));
    PackUnpack(k);
  }

  /** Six symbols complete data to a valid string of an encoding just when they are its checksum. */
  lemma ChecksumIff(encoding: Encoding, hrp: seq<bv8>, values: Symbols, d: Symbols)
    requires |d| == 6
    ensures Verify(hrp, values + d) == Some(encoding) <==> d == Checksum(encoding, hrp, values)
  {
    var z, k := PolyFrom(1, Expand(hrp, values) + SIX_ZEROS), EncodingConstant(encoding);
    hide PolyFrom, Xor, Pack, Unpack, Verify, Residue, Expand;
    VerifyIff(hrp, values + d, encoding);
    ResidueOf(hrp, values, d);
    ZerosBound(hrp, values);
    XorBack(z, k, Pack(d));
    XorFits(z, k);
    UnpackPack(d);
    PackUnpack(Xor(z, k));
  }

  /** Changing up to six neighbouring data symbols of a valid string never leaves it valid for the same encoding. */
  lemma BurstNeverVerifies(encoding: Encoding, hrp: seq<bv8>, before: Symbols, a: Symbols, b: Symbols, after: Symbols)
    requires |a| == |b| <= 6 && a != b && Verify(hrp, before + a + after) == Some(encoding)
    ensures Verify(hrp, before + b + after) != Some(encoding)
  {
    hide PolyFrom, Verify, Expand;
    var e := Expand(hrp, before);
    ExpandMore(hrp, before + a, after);
    ExpandMore(hrp, before, a);
    ExpandMore(hrp, before + b, after);
    ExpandMore(hrp, before, b);
    VerifyIff(hrp, before + a + after, encoding);
    VerifyIff(hrp, before + b + after, encoding);
    BurstDetected(e, a, b, after);
  }

  // ---------- encoding ----------

  function Chars(values: seq<bv8>): (r: seq<bv8>)
    ensures |r| == |values|
  {
    seq(|values|, i requires 0 <= i < |values| => CharOf(values[i]))
  }

  function EncodeText(encoding: Encoding, hrp: seq<bv8>, values: Symbols): seq<bv8> {
    hrp + [SEPARATOR] + Chars(values + Checksum(encoding, hrp, values))
  }

  method Encode(encoding: Encoding, hrp: seq<bv8>, values: Symbols) returns (ret: seq<bv8>)
    requires NoUpper(hrp)
    ensures ret == EncodeText(encoding, hrp, values)
  {
    hide CharOf, Checksum;
    ret := hrp + [SEPARATOR];
    var checksum := CreateChecksum(encoding, hrp, values);
    for i := 0 to |values|
      invariant ret == hrp + [SEPARATOR] + Chars(values)[..i]
    {
      ret := ret + [CharOf(values[i])];
    }
    for i := 0 to |checksum|
      invariant ret == hrp + [SEPARATOR] + Chars(values) + Chars(checksum)[..i]
    {
      ret := ret + [CharOf(checksum[i])];
    }
    assert Chars(values + checksum) == Chars(values) + Chars(checksum);
  }

  // ---------- decoding ----------

  /** The position of the last separator, or -1. */
  function LastSeparator(s: seq<bv8>): (p: int)
    ensures -1 <= p < |s|
  {
    if s == [] then -1
    else if s[|s| - 1] == SEPARATOR then |s| - 1
    else LastSeparator(s[..|s| - 1])
  }

  lemma {:induction false} LastSeparatorIs(s: seq<bv8>, p: int)
    requires -1 <= p < |s|
    ensures LastSeparator(s) == p <==> (p >= 0 ==> s[p] == SEPARATOR) && forall i :: p < i < |s| ==> s[i] != SEPARATOR
  {
    if s != [] {
      var n := |s| - 1;
      if p < n {
        LastSeparatorIs(s[..n], p);
      }
    }
  }

  /** Where a string is split into prefix and data; none if the split leaves either too short. */
  predicate Splits(str: seq<bv8>, limit: nat, pos: int) {
    |str| <= limit && 0 < pos && pos + CHECKSUM_SIZE < |str|
  }

  predicate AllKnown(s: seq<bv8>) {
    forall i :: 0 <= i < |s| ==> RevOf(s[i]) != 255
  }

  function Values(s: seq<bv8>): (r: Symbols)
    requires AllKnown(s)
    ensures |r| == |s|
    ensures forall i :: 0 <= i < |s| ==> r[i] == RevOf(s[i])
  {
    KnownSymbols(s);
    seq(|s|, i requires 0 <= i < |s| => RevOf(s[i]))
  }

  lemma KnownSymbols(s: seq<bv8>)
    requires AllKnown(s)
    ensures forall i :: 0 <= i < |s| ==> RevOf(s[i]) < 32
  {
    hide RevLower, LowerCase;
    forall i | 0 <= i < |s|
      ensures RevOf(s[i]) < 32
    {
      RevBack(LowerCase(s[i]));
    }
  }

  function DecodeText(str: seq<bv8>, limit: nat): Option<Decoded> {
    var pos := LastSeparator(str);
    if !CharsOk(str) || !Splits(str, limit, pos) || !AllKnown(str[pos + 1..]) then None
    else
      var hrp, values := LowerAll(str[..pos]), Values(str[pos + 1..]);
      var result := Verify(hrp, values);
      if result.None? then None
      else Some(Decoded(result.value, hrp, values[..|values| - CHECKSUM_SIZE]))
  }

  method Decode(str: seq<bv8>, limit: nat) returns (r: Option<Decoded>)
    ensures r == DecodeText(str, limit)
  {
    hide RevLower, LowerCase, Verify, CharsOk;
    var ok, errors := CheckCharacters(str);
    NoneOffends(str);
    assert ok <==> CharsOk(str) by {
      if ok {
        assert forall i :: 0 <= i < |str| ==> i !in errors;
      } else {
        assert errors[0] in errors;
      }
    }
    if !ok {
      return None;
    }
    var pos := FindLast(str);
    if |str| > limit {
      return None;
    }
    if pos == -1 || pos == 0 || pos + CHECKSUM_SIZE >= |str| {
      return None;
    }
    ghost var tail := str[pos + 1..];
    var values: seq<bv8> := seq(|str| - 1 - pos, _ => 0);
    for i := 0 to |str| - 1 - pos
      invariant |values| == |tail| && forall k :: 0 <= k < i ==> values[k] == RevOf(tail[k]) != 255
    {
      var rev := RevOf(str[i + pos + 1]);
      if rev == 255 {
        assert RevOf(tail[i]) == 255;
        return None;
      }
      values := values[i := rev];
    }
    var hrp := [];
    for i := 0 to pos
      invariant hrp == LowerAll(str[..pos])[..i]
    {
      hrp := hrp + [LowerCase(str[i])];
    }
    assert hrp == LowerAll(str[..pos]);
    assert values == Values(tail);
    var result := VerifyChecksum(hrp, values);
    if result.None? {
      return None;
    }
    r := Some(Decoded(result.value, hrp, values[..|values| - CHECKSUM_SIZE]));
  }

  method FindLast(str: seq<bv8>) returns (pos: int)
    ensures pos == LastSeparator(str)
  {
    pos := |str| - 1;
    while pos >= 0 && str[pos] != SEPARATOR
      invariant -1 <= pos < |str| && forall i :: pos < i < |str| ==> str[i] != SEPARATOR
    {
      pos := pos - 1;
    }
    LastSeparatorIs(str, pos);
  }

  // ---------- each undoes the other ----------

  /** A string that decodes is, in lower case, the encoding of what it decodes to. */
  lemma DecodedIsEncoded(str: seq<bv8>, limit: nat)
    requires DecodeText(str, limit).Some?
    ensures var d := DecodeText(str, limit).value;
      d.hrp != [] && NoUpper(d.hrp) && LowerAll(str) == EncodeText(d.encoding, d.hrp, d.data)
  {
    hide RevLower, LowerCase, CharOf, IsUpper, Verify, Checksum, CharsOk, LastSeparator;
    var d := DecodeText(str, limit).value;
    var pos := LastSeparator(str);
    var values := Values(str[pos + 1..]);
    var n := |values| - CHECKSUM_SIZE;
    assert values == d.data + values[n..];
    ChecksumIff(d.encoding, d.hrp, d.data, values[n..]);
    assert EncodeText(d.encoding, d.hrp, d.data) == d.hrp + [SEPARATOR] + Chars(values);
    SplitLower(str, pos);
    LowerHrp(str[..pos]);
  }

  lemma LowerHrp(s: seq<bv8>)
    ensures NoUpper(LowerAll(s))
  {
    forall i | 0 <= i < |s|
      ensures !IsUpper(LowerAll(s)[i])
    {
      CaseFacts(s[i]);
    }
  }

  /** A string in lower case, cut at its last separator. */
  lemma SplitLower(str: seq<bv8>, pos: nat)
    requires pos == LastSeparator(str) && AllKnown(str[pos + 1..])
    ensures LowerAll(str) == LowerAll(str[..pos]) + [SEPARATOR] + Chars(Values(str[pos + 1..]))
  {
    hide RevLower, LowerCase, CharOf;
    LastSeparatorIs(str, pos);
    CaseFacts(str[pos]);
    var tail := str[pos + 1..];
    forall i | 0 <= i < |tail|
      ensures CharOf(RevOf(tail[i])) == LowerCase(tail[i])
    {
      RevBack(LowerCase(tail[i]));
    }
    var whole := LowerAll(str[..pos]) + [SEPARATOR] + Chars(Values(tail));
    forall i | 0 <= i < |str|
      ensures LowerAll(str)[i] == whole[i]
    {
      if i > pos {
        assert tail[i - pos - 1] == str[i];
      } else if i == pos {
        LowerSeparator();
      }
    }
  }

  lemma LowerSeparator()
    ensures LowerCase(SEPARATOR) == SEPARATOR
  {
  }

  /** Any string without mixed case whose lower-case form encodes something decodes to that. */
  lemma EncodedDecodes(str: seq<bv8>, limit: nat, encoding: Encoding, hrp: seq<bv8>, data: Symbols)
    requires CharsOk(str) && |str| <= limit && hrp != [] && NoUpper(hrp)
    requires LowerAll(str) == EncodeText(encoding, hrp, data)
    ensures DecodeText(str, limit) == Some(Decoded(encoding, hrp, data))
  {
    hide RevLower, LowerCase, CharOf, IsUpper, Verify, Checksum, CharsOk, LastSeparator, NoUpper;
    var values: Symbols := data + Checksum(encoding, hrp, data);
    var pos := |hrp|;
    assert |str| == pos + 1 + |values|;
    SeparatorThere(str, hrp, values);
    TailReadsBack(str, hrp, values);
    HrpReadsBack(str, hrp, values);
    assert Values(str[pos + 1..]) == values;
    ChecksumIff(encoding, hrp, data, Checksum(encoding, hrp, data));
    assert values[..|values| - CHECKSUM_SIZE] == data;
  }

  lemma SeparatorThere(str: seq<bv8>, hrp: seq<bv8>, values: Symbols)
    requires LowerAll(str) == hrp + [SEPARATOR] + Chars(values)
    ensures LastSeparator(str) == |hrp|
  {
    hide LowerCase, CharOf, IsUpper;
    var pos := |hrp|;
    assert |str| == pos + 1 + |values|;
    assert LowerCase(str[pos]) == LowerAll(str)[pos];
    CaseFacts(str[pos]);
    forall i | pos < i < |str|
      ensures str[i] != SEPARATOR
    {
      assert LowerCase(str[i]) == LowerAll(str)[i] == CharOf(values[i - pos - 1]);
      CharPlain(values[i - pos - 1]);
      CaseFacts(str[i]);
    }
    LastSeparatorIs(str, pos);
  }

  lemma TailReadsBack(str: seq<bv8>, hrp: seq<bv8>, values: Symbols)
    requires LowerAll(str) == hrp + [SEPARATOR] + Chars(values)
    ensures |str| == |hrp| + 1 + |values| && AllKnown(str[|hrp| + 1..])
    ensures Values(str[|hrp| + 1..]) == values
  {
    hide RevLower, LowerCase, CharOf;
    var pos := |hrp|;
    assert |str| == pos + 1 + |values|;
    var tail := str[pos + 1..];
    forall i | 0 <= i < |tail|
      ensures RevOf(tail[i]) == values[i] && values[i] < 32
    {
      assert LowerCase(tail[i]) == LowerAll(str)[pos + 1 + i] == CharOf(values[i]);
      CharBack(values[i]);
    }
  }

  lemma HrpReadsBack(str: seq<bv8>, hrp: seq<bv8>, values: Symbols)
    requires LowerAll(str) == hrp + [SEPARATOR] + Chars(values) && |hrp| <= |str|
    ensures LowerAll(str[..|hrp|]) == hrp
  {
    hide LowerCase, CharOf;
    forall i | 0 <= i < |hrp|
      ensures LowerAll(str[..|hrp|])[i] == hrp[i]
    {
      assert LowerAll(str)[i] == hrp[i];
    }
  }

  /**
   Decoding succeeds with a result just when the string is printable, not of mixed case,
   within the limit, and in lower case the encoding of that result.
   */
  lemma DecodeIff(str: seq<bv8>, limit: nat, d: Decoded)
    ensures DecodeText(str, limit) == Some(d) <==>
      CharsOk(str) && |str| <= limit && d.hrp != [] && NoUpper(d.hrp)
        && LowerAll(str) == EncodeText(d.encoding, d.hrp, d.data)
  {
    hide CharsOk, EncodeText, NoUpper, Verify, LowerCase, RevLower, LastSeparator;
    if DecodeText(str, limit) == Some(d) {
      DecodedIsEncoded(str, limit);
    } else if CharsOk(str) && |str| <= limit && d.hrp != [] && NoUpper(d.hrp)
      && LowerAll(str) == EncodeText(d.encoding, d.hrp, d.data) {
      EncodedDecodes(str, limit, d.encoding, d.hrp, d.data);
    }
  }

  /** An encoding within the limit decodes to what was encoded, as it is and in upper case. */
  lemma RoundTrip(encoding: Encoding, hrp: seq<bv8>, data: Symbols, limit: nat)
    requires hrp != [] && Printable(hrp) && NoUpper(hrp) && |hrp| + 1 + |data| + CHECKSUM_SIZE <= limit
    ensures DecodeText(EncodeText(encoding, hrp, data), limit) == Some(Decoded(encoding, hrp, data))
    ensures DecodeText(UpperAll(EncodeText(encoding, hrp, data)), limit) == Some(Decoded(encoding, hrp, data))
  {
    hide CharOf, LowerCase, UpperCase, IsUpper, IsLower, Checksum, DecodeText;
    var text := EncodeText(encoding, hrp, data);
    var values: Symbols := data + Checksum(encoding, hrp, data);
    forall i | 0 <= i < |text|
      ensures 33 <= text[i] <= 126 && !IsUpper(text[i])
      ensures LowerCase(text[i]) == text[i] && LowerCase(UpperCase(text[i])) == text[i]
      ensures 33 <= UpperCase(text[i]) <= 126 && !IsLower(UpperCase(text[i]))
    {
      PlainText(hrp, values, i);
      CaseFacts(text[i]);
    }
    assert LowerAll(text) == text;
    assert LowerAll(UpperAll(text)) == text;
    DecodeIff(text, limit, Decoded(encoding, hrp, data));
    DecodeIff(UpperAll(text), limit, Decoded(encoding, hrp, data));
  }

  lemma PlainText(hrp: seq<bv8>, values: Symbols, i: nat)
    requires Printable(hrp) && NoUpper(hrp) && i < |hrp| + 1 + |values|
    ensures var c := (hrp + [SEPARATOR] + Chars(values))[i]; 33 <= c <= 126 && !IsUpper(c)
  {
    hide CharOf;
    if i > |hrp| {
      CharPlain(values[i - |hrp| - 1]);
    }
  }

  // ---------- known strings ----------

  lemma {:induction false} FollowTrail(v: seq<bv8>, trail: seq<bv32>, n: nat)
    requires |trail| == |v| + 1 && n <= |v| && trail[0] == 1
    requires forall i :: 0 <= i < |v| ==> Step(trail[i], v[i]) == trail[i + 1]
    ensures PolyFrom(1, v[..n]) == trail[n]
  {
    hide Step;
    if n > 0 {
      FollowTrail(v, trail, n - 1);
      assert v[..n][..n - 1] == v[..n - 1];
    } else {
      assert v[..0] == [];
    }
  }

  const PREFIX_A: seq<bv8> := [97]

  lemma RemainderOfA()
    ensures PolyFrom(1, [3, 0, 1, 0, 0, 0, 0, 0, 0]) == 0x15ccfe9e
  {
    var v: seq<bv8> := [3, 0, 1, 0, 0, 0, 0, 0, 0];
    var trail: seq<bv32> :=
      [0x1, 0x23, 0x460, 0x8c01, 0x118020, 0x2300400, 0x3d6ad7b2, 0x2fd30b9, 0x24cc4092, 0x15ccfe9e];
    assert Step(0x1, 3) == 0x23 && Step(0x23, 0) == 0x460 && Step(0x460, 1) == 0x8c01;
    assert Step(0x8c01, 0) == 0x118020 && Step(0x118020, 0) == 0x2300400 && Step(0x2300400, 0) == 0x3d6ad7b2;
    assert Step(0x3d6ad7b2, 0) == 0x2fd30b9 && Step(0x2fd30b9, 0) == 0x24cc4092 && Step(0x24cc4092, 0) == 0x15ccfe9e;
    hide Step;
    FollowTrail(v, trail, 9);
    assert v[..9] == v;
  }

  lemma ExpandOfA()
    ensures Expand(PREFIX_A, []) + SIX_ZEROS == [3, 0, 1, 0, 0, 0, 0, 0, 0]
  {
    assert High(97) == 3 && Low5(97) == 1;
    hide High, Low5;
  }

  /** The shortest strings of the test vectors: a12uel5l and a1lqfn3a. */
  lemma KnownStrings()
    ensures Checksum(BECH32, PREFIX_A, []) == [10, 28, 25, 31, 20, 31]
    ensures Checksum(BECH32M, PREFIX_A, []) == [31, 0, 9, 19, 17, 29]
  {
    hide PolyFrom, Expand;
    RemainderOfA();
    ExpandOfA();
    assert Unpack(Xor(0x15ccfe9e, 1)) == [10, 28, 25, 31, 20, 31];
    assert Unpack(Xor(0x15ccfe9e, 0x2bc830a3)) == [31, 0, 9, 19, 17, 29];
  }
}
