/** Bech32 and Bech32m strings: encoding, decoding, and that each undoes the other. Characters are bytes. */
module Bech32 {
  import opened Bech32Poly

  datatype Encoding = BECH32 | BECH32M

  datatype Decoded = Decoded(encoding: Encoding, hrp: seq<bv8>, data: Symbols)

  const CHECKSUM_SIZE := 6
  const SEPARATOR: bv8 := 49

  function EncodingConstant(encoding: Encoding): bv32 {
    if encoding == BECH32 then 1 else 0x2bc830a3
  }

  // ---------- characters ----------

  /** The character of a symbol. */
  function CharOf(v: bv8): bv8 {
    match v
    case 0 => 113 case 1 => 112 case 2 => 122 case 3 => 114 case 4 => 121 case 5 => 57 case 6 => 120 case 7 => 56
    case 8 => 103 case 9 => 102 case 10 => 50 case 11 => 116 case 12 => 118 case 13 => 100 case 14 => 119 case 15 => 48
    case 16 => 115 case 17 => 51 case 18 => 106 case 19 => 110 case 20 => 53 case 21 => 52 case 22 => 107 case 23 => 104
    case 24 => 99 case 25 => 101 case 26 => 54 case 27 => 109 case 28 => 117 case 29 => 97 case 30 => 55 case _ => 108
  }

  /** The symbol of a digit or lower-case letter; 255 stands for the table's -1. */
  function RevLower(c: bv8): bv8 {
    match c
    case 48 => 15 case 50 => 10 case 51 => 17 case 52 => 21 case 53 => 20 case 54 => 26 case 55 => 30 case 56 => 7
    case 57 => 5 case 97 => 29 case 99 => 24 case 100 => 13 case 101 => 25 case 102 => 9 case 103 => 8 case 104 => 23
    case 106 => 18 case 107 => 22 case 108 => 31 case 109 => 27 case 110 => 19 case 112 => 1 case 113 => 0 case 114 => 3
    case 115 => 16 case 116 => 11 case 117 => 28 case 118 => 12 case 119 => 14 case 120 => 6 case 121 => 4 case 122 => 2
    case _ => 255
  }

  /** The symbol of a character; the table gives both cases of a letter the same one. */
  function RevOf(c: bv8): bv8 { RevLower(LowerCase(c)) }

  predicate IsLower(c: bv8) { 97 <= c <= 122 }

  predicate IsUpper(c: bv8) { 65 <= c <= 90 }

  function LowerCase(c: bv8): bv8 { if IsUpper(c) then c - 65 + 97 else c }

  function UpperCase(c: bv8): bv8 { if IsLower(c) then c - 97 + 65 else c }

  /** The character set of BIP 173, in order. */
  lemma Charset0()
    ensures CharOf(0) == 'q' as bv8 && CharOf(1) == 'p' as bv8 && CharOf(2) == 'z' as bv8 && CharOf(3) == 'r' as bv8
    ensures CharOf(4) == 'y' as bv8 && CharOf(5) == '9' as bv8 && CharOf(6) == 'x' as bv8 && CharOf(7) == '8' as bv8
  {
  }

  lemma Charset8()
    ensures CharOf(8) == 'g' as bv8 && CharOf(9) == 'f' as bv8 && CharOf(10) == '2' as bv8 && CharOf(11) == 't' as bv8
    ensures CharOf(12) == 'v' as bv8 && CharOf(13) == 'd' as bv8 && CharOf(14) == 'w' as bv8 && CharOf(15) == '0' as bv8
  {
  }

  lemma Charset16()
    ensures CharOf(16) == 's' as bv8 && CharOf(17) == '3' as bv8 && CharOf(18) == 'j' as bv8 && CharOf(19) == 'n' as bv8
  {
  }

  lemma Charset20()
    ensures CharOf(20) == '5' as bv8 && CharOf(21) == '4' as bv8 && CharOf(22) == 'k' as bv8 && CharOf(23) == 'h' as bv8
  {
  }

  lemma Charset24()
    ensures CharOf(24) == 'c' as bv8 && CharOf(25) == 'e' as bv8 && CharOf(26) == '6' as bv8 && CharOf(27) == 'm' as bv8
  {
  }

  lemma Charset28()
    ensures CharOf(28) == 'u' as bv8 && CharOf(29) == 'a' as bv8 && CharOf(30) == '7' as bv8 && CharOf(31) == 'l' as bv8
  {
  }

  /** Symbol characters read back as their symbol. */
  lemma CharBack(v: bv8)
    requires v < 32
    ensures RevLower(CharOf(v)) == v
  {
  }

  /** Symbol characters are never the separator and never upper case. */
  lemma CharPlain(v: bv8)
    ensures CharOf(v) != SEPARATOR && !IsUpper(CharOf(v)) && 33 <= CharOf(v) <= 126
  {
  }

  lemma RevBack(c: bv8)
    requires RevLower(c) != 255
    ensures RevLower(c) < 32 && CharOf(RevLower(c)) == c
  {
  }

  lemma CaseFacts(c: bv8)
    ensures !IsUpper(LowerCase(c)) && (LowerCase(c) == SEPARATOR <==> c == SEPARATOR)
    ensures !IsUpper(c) ==> LowerCase(c) == c && LowerCase(UpperCase(c)) == c && !IsLower(UpperCase(c))
    ensures 33 <= c <= 126 <==> 33 <= LowerCase(c) <= 126
    ensures !IsUpper(c) && 33 <= c <= 126 ==> 33 <= UpperCase(c) <= 126
  {
  }

  // ---------- whole strings ----------

  function LowerAll(s: seq<bv8>): (r: seq<bv8>)
    ensures |r| == |s|
  {
    seq(|s|, i requires 0 <= i < |s| => LowerCase(s[i]))
  }

  function UpperAll(s: seq<bv8>): (r: seq<bv8>)
    ensures |r| == |s|
  {
    seq(|s|, i requires 0 <= i < |s| => UpperCase(s[i]))
  }

  predicate Printable(s: seq<bv8>) {
    forall i :: 0 <= i < |s| ==> 33 <= s[i] <= 126
  }

  predicate NoUpper(s: seq<bv8>) {
    forall i :: 0 <= i < |s| ==> !IsUpper(s[i])
  }

  predicate NoLower(s: seq<bv8>) {
    forall i :: 0 <= i < |s| ==> !IsLower(s[i])
  }

  /** Printable and not of mixed case. */
  predicate CharsOk(s: seq<bv8>) {
    Printable(s) && (NoUpper(s) || NoLower(s))
  }

  /** Which case the letters of a string may have, as its first letter decides. */
  datatype Seen = Nothing | Lower | Upper

  function CaseSeen(s: seq<bv8>): Seen {
    if s == [] then Nothing
    else
      var before := CaseSeen(s[..|s| - 1]);
      var c := s[|s| - 1];
      if before != Nothing then before else if IsLower(c) then Lower else if IsUpper(c) then Upper else Nothing
  }

  /** A character that is not printable or not of the case of the first letter. */
  predicate Offends(s: seq<bv8>, i: nat)
    requires i < |s|
  {
    var seen := CaseSeen(s[..i]);
    !(33 <= s[i] <= 126) || (IsLower(s[i]) && seen == Upper) || (IsUpper(s[i]) && seen == Lower)
  }

  /** Lists the positions of the offending characters. */
  method CheckCharacters(str: seq<bv8>) returns (ok: bool, errors: seq<nat>)
    ensures ok <==> errors == []
    ensures forall i :: 0 <= i < |str| ==> (i in errors <==> Offends(str, i))
    ensures forall k :: 0 <= k < |errors| ==> errors[k] < |str|
    ensures forall j, k :: 0 <= j < k < |errors| ==> errors[j] < errors[k]
  {
    var lower, upper := false, false;
    errors := [];
    for i := 0 to |str|
      invariant lower <==> CaseSeen(str[..i]) == Lower
      invariant upper <==> CaseSeen(str[..i]) == Upper
      invariant forall k :: 0 <= k < |errors| ==> errors[k] < i
      invariant forall j, k :: 0 <= j < k < |errors| ==> errors[j] < errors[k]
      invariant forall k :: 0 <= k < i ==> (k in errors <==> Offends(str, k))
    {
      assert str[..i + 1][..i] == str[..i];
      var c := str[i];
      if IsLower(c) {
        if upper {
          errors := errors + [i];
        } else {
          lower := true;
        }
      } else if IsUpper(c) {
        if lower {
          errors := errors + [i];
        } else {
          upper := true;
        }
      } else if c < 33 || c > 126 {
        errors := errors + [i];
      }
    }
    ok := errors == [];
  }

  lemma {:induction false} CaseSeenFacts(s: seq<bv8>)
    ensures CaseSeen(s) == Nothing <==> NoUpper(s) && NoLower(s)
    ensures NoUpper(s) ==> CaseSeen(s) != Upper
    ensures NoLower(s) ==> CaseSeen(s) != Lower
  {
    if s != [] {
      var t := s[..|s| - 1];
      CaseSeenFacts(t);
      assert s == t + [s[|s| - 1]];
    }
  }

  /** No character offends just when the string is printable and not of mixed case. */
  lemma {:induction false} NoneOffends(s: seq<bv8>)
    ensures (forall i :: 0 <= i < |s| ==> !Offends(s, i)) <==> CharsOk(s)
    ensures CharsOk(s) ==> (CaseSeen(s) == Lower ==> NoUpper(s)) && (CaseSeen(s) == Upper ==> NoLower(s))
  {
    if s != [] {
      var n := |s| - 1;
      var t := s[..n];
      NoneOffends(t);
      CaseSeenFacts(t);
      assert s == t + [s[n]];
      forall i | 0 <= i < n
        ensures Offends(s, i) == Offends(t, i)
      {
        assert t[..i] == s[..i];
      }
      assert NoUpper(s) <==> NoUpper(t) && !IsUpper(s[n]);
      assert NoLower(s) <==> NoLower(t) && !IsLower(s[n]);
      assert Printable(s) <==> Printable(t) && 33 <= s[n] <= 126;
      assert (forall i :: 0 <= i < |s| ==> !Offends(s, i)) <==>
        (forall i :: 0 <= i < n ==> !Offends(t, i)) && !Offends(s, n);
    }
  }
}
