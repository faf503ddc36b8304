/** Base58 encoding and decoding undo each other, with and without a hash check. */
module Base58Trip {
  import opened Wrappers
  import opened Radix
  import opened Base58

  /** Decoding the text of some bytes gives the bytes. */
  lemma BodyOfEncoding(input: Bytes)
    ensures InAlphabet(EncodeText(input)) && DecodeBody(EncodeText(input)) == input
  {
    hide Value, ToDigits, CharOf, DigitOf, Lead;
    var z := Lead(input, 0);
    var rest := input[z..];
    ValueBound(rest, 256);
    var v := Value(rest, 256);
    var ds, text := ToDigits(v, 58), EncodeText(input);
    forall i | 0 <= i < |ds|
      ensures DigitOf(CharOf(ds[i])) == ds[i]
    {
      CharDigit(ds[i]);
    }
    OneIsDigit();
    assert InAlphabet(text);
    FrontOfText(text, z, ds, v);
    assert DigitsOf(text[z..]) == ds;
    ToDigitsValue(v, 58);
    DigitsUnique(rest, 256);
    assert input == Repeat(0, z) + rest;
  }

  lemma OneIsDigit()
    ensures DigitOf(ONE) == 0
  {
  }

  lemma FrontOfText(text: seq<int>, z: nat, ds: seq<int>, v: nat)
    requires ds == ToDigits(v, 58) && text == Repeat(ONE, z) + Chars(ds)
    ensures Lead(text, ONE) == z && text[z..] == Chars(ds)
  {
    hide ToDigits, CharOf;
    if v > 0 {
      LeadingDigit(v, 58);
      CharDigit(ds[0]);
    } else {
      NoDigits(58);
    }
    LeadIs(text, ONE, z);
  }

  lemma NoDigits(base: nat)
    requires base > 1
    ensures ToDigits(0, base) == []
  {
  }

  /** Encoding the bytes of some text gives the text. */
  lemma EncodingOfBody(body: seq<int>)
    requires InAlphabet(body)
    ensures EncodeText(DecodeBody(body)) == body
  {
    hide Value, ToDigits, CharOf, DigitOf, Lead;
    var z := Lead(body, ONE);
    var ds := DigitsOf(body[z..]);
    ValueBound(ds, 58);
    var v := Value(ds, 58);
    var bytes := ToDigits(v, 256);
    var whole := DecodeBody(body);
    if v > 0 {
      LeadingDigit(v, 256);
    } else {
      NoDigits(256);
    }
    LeadIs(whole, 0, z);
    assert whole[z..] == bytes;
    ToDigitsValue(v, 256);
    if z < |body| {
      NotOne(body[z]);
    }
    DigitsUnique(ds, 58);
    forall i | 0 <= i < |ds|
      ensures CharOf(ds[i]) == body[z..][i]
    {
      DigitChar(body[z..][i]);
    }
    assert body == Repeat(ONE, z) + body[z..];
    assert Chars(ds) == body[z..];
  }

  lemma NotOne(c: int)
    requires DigitOf(c) != -1 && c != ONE
    ensures DigitOf(c) > 0
  {
  }

  /** Decoding succeeds with some bytes just when they fit and the text, spaces around it aside, encodes them. */
  lemma DecodeIff(str: seq<int>, maxLen: nat, bytes: Bytes)
    ensures DecodeText(str, maxLen) == Some(bytes) <==> |bytes| <= maxLen && Trim(str) == EncodeText(bytes)
  {
    hide EncodeText, DecodeBody, Trim;
    BodyOfEncoding(bytes);
    if InAlphabet(Trim(str)) {
      EncodingOfBody(Trim(str));
    }
  }

  /** The text of some bytes, with any spaces around it, decodes to them exactly when they fit. */
  lemma RoundTrip(before: seq<int>, bytes: Bytes, after: seq<int>, maxLen: nat)
    requires forall i :: 0 <= i < |before| ==> IsSpace(before[i])
    requires forall i :: 0 <= i < |after| ==> IsSpace(after[i])
    ensures DecodeText(before + EncodeText(bytes) + after, maxLen) == if |bytes| <= maxLen then Some(bytes) else None
  {
    hide EncodeText, DecodeBody, Trim, DigitOf;
    var text := EncodeText(bytes);
    var str := before + text + after;
    BodyOfEncoding(bytes);
    forall i | 0 <= i < |text|
      ensures !IsSpace(text[i])
    {
      DigitChar(text[i]);
    }
    TrimIs(str, |before|, |before| + |text|);
    assert str[|before|..|before| + |text|] == text;
  }

  // ---------- with a hash check ----------

  const INT_MAX := 0x7fff_ffff

  /** A hash of byte strings, of at least four bytes. */
  type Hash = h: Bytes -> Bytes | forall b :: |h(b)| >= 4 witness _ => [0, 0, 0, 0]

  /** The first four bytes of the hash come behind. */
  function Checked(input: Bytes, hash: Hash): (r: Bytes)
    ensures |r| == |input| + 4 && input <= r
    ensures forall i :: 0 <= i < 4 ==> r[|input| + i] == hash(input)[i]
  {
    input + hash(input)[..4]
  }

  method EncodeBase58Check(input: Bytes, hash: Hash) returns (str: seq<int>)
    ensures str == EncodeText(Checked(input, hash))
  {
    str := EncodeBase58(Checked(input, hash));
  }

  function Limit(maxLen: nat): nat {
    if maxLen > INT_MAX - 4 then INT_MAX else maxLen + 4
  }

  /** The bytes before a valid checksum. */
  function Unchecked(vch: Bytes, hash: Hash): Option<Bytes> {
    if |vch| < 4 then None
    else
      var n := |vch| - 4;
      if hash(vch[..n])[..4] == vch[n..] then Some(vch[..n]) else None
  }

  function DecodeCheckText(str: seq<int>, maxLen: nat, hash: Hash): Option<Bytes> {
    var vch := DecodeText(str, Limit(maxLen));
    if vch.None? then None else Unchecked(vch.value, hash)
  }

  method DecodeBase58Check(str: Bytes, maxLen: nat, hash: Hash) returns (r: Option<Bytes>)
    ensures r == DecodeCheckText(str, maxLen, hash)
  {
    hide DecodeText;
    var vch := DecodeBase58(str, Limit(maxLen));
    if vch.None? || |vch.value| < 4 {
      return None;
    }
    var n := |vch.value| - 4;
    if hash(vch.value[..n])[..4] != vch.value[n..] {
      return None;
    }
    r := Some(vch.value[..n]);
  }

  lemma UncheckedIff(vch: Bytes, hash: Hash, bytes: Bytes)
    ensures Unchecked(vch, hash) == Some(bytes) <==> vch == Checked(bytes, hash)
  {
    if |vch| >= 4 {
      assert vch == vch[..|vch| - 4] + vch[|vch| - 4..];
    }
    assert Checked(bytes, hash)[..|bytes|] == bytes && Checked(bytes, hash)[|bytes|..] == hash(bytes)[..4];
  }

  /** A checked decode succeeds with some bytes just when they fit and the text encodes them with their checksum. */
  lemma DecodeCheckIff(str: seq<int>, maxLen: nat, hash: Hash, bytes: Bytes)
    ensures DecodeCheckText(str, maxLen, hash) == Some(bytes) <==>
            |bytes| + 4 <= Limit(maxLen) && Trim(str) == EncodeText(Checked(bytes, hash))
  {
    hide DecodeText, Trim, EncodeText, Unchecked, Checked;
    DecodeIff(str, Limit(maxLen), Checked(bytes, hash));
    var vch := DecodeText(str, Limit(maxLen));
    if vch.Some? {
      UncheckedIff(vch.value, hash, bytes);
    }
    CheckedLength(bytes, hash);
  }

  lemma CheckedLength(bytes: Bytes, hash: Hash)
    ensures |Checked(bytes, hash)| == |bytes| + 4
  {
  }
}
