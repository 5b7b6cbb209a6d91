/** Packed decimal (iso8583/parser.py): two digits a byte, an odd digit padded with a trailing F nibble. */
module Bcd {
  import opened Wrappers
  import opened Text
  import opened Bytes

  /** ASCII white space, which bytes.fromhex skips between bytes. */
  predicate IsAsciiSpace(c: char) {
    '\t' <= c <= '\r' || c == ' '
  }

  /** bytes.fromhex(s) */
  function FromHex(s: string): Option<seq<byte>> {
    if s == "" then Some([])
    else if IsAsciiSpace(s[0]) then FromHex(s[1..])
    else if |s| < 2 || !IsHex(s[0]) || !IsHex(s[1]) then None
    else
      var rest :- FromHex(s[2..]);
      Some([16 * HexVal(s[0]) + HexVal(s[1])] + rest)
  }

  /** data.hex().upper() */
  function ToHex(data: seq<byte>): (s: string)
    ensures |s| == 2 * |data| && AllUpperHex(s)
  {
    if data == [] then "" else [HexChar(data[0] / 16), HexChar(data[0] % 16)] + ToHex(data[1..])
  }

  function Encode(digits: string): Option<seq<byte>> {
    FromHex(if |digits| % 2 == 1 then digits + "F" else digits)
  }

  function Decode(data: seq<byte>, numDigits: nat): (s: string)
    ensures AllUpperHex(s) && |s| <= numDigits
  {
    Truncate(ToHex(data), numDigits)
  }

  function ByteLen(numDigits: nat): nat {
    (numDigits + 1) / 2
  }

  /** ASCII white space before a byte is skipped, and only that. */
  lemma WhiteSpaceSkipped(c: char, s: string)
    ensures IsAsciiSpace(c) <==> c as int in {9, 10, 11, 12, 13, 32}
    ensures IsAsciiSpace(c) ==> FromHex([c] + s) == FromHex(s)
    ensures !IsAsciiSpace(c) && !IsHex(c) ==> FromHex([c] + s) == None
  {
    assert ([c] + s)[1..] == s;
  }

  lemma {:induction false} FromHexOfUpper(s: string)
    requires AllUpperHex(s) && |s| % 2 == 0
    ensures FromHex(s).Some? && ToHex(FromHex(s).value) == s
    decreases |s|
  {
    if s != "" {
      FromHexOfUpper(s[2..]);
      var first, rest := s[..2], FromHex(s[2..]).value;
      assert FromHex(s).value[1..] == rest;
      assert s == first + s[2..];
    }
  }

  /** Packing hex digits takes half as many bytes, rounded up, and unpacking them undoes it. */
  lemma EncodeHex(s: string)
    requires AllUpperHex(s)
    ensures Encode(s).Some? && |Encode(s).value| == ByteLen(|s|)
    ensures Decode(Encode(s).value, |s|) == s
  {
    var t := if |s| % 2 == 1 then s + "F" else s;
    FromHexOfUpper(t);
    assert t[..|s|] == s;
  }

  /** The packed form of a text is undone by unpacking exactly when the text is upper-case hex digits. */
  lemma RoundTripExact(s: string)
    ensures (Encode(s).Some? && Decode(Encode(s).value, |s|) == s) <==> AllUpperHex(s)
  {
    if AllUpperHex(s) {
      EncodeHex(s);
    }
  }

  lemma {:induction false} ToHexAppend(a: seq<byte>, b: seq<byte>)
    ensures ToHex(a + b) == ToHex(a) + ToHex(b)
  {
    hide HexChar;
    if a == [] {
      assert a + b == b;
    } else {
      ToHexAppend(a[1..], b);
      assert (a + b)[1..] == a[1..] + b && (a + b)[0] == a[0];
      var first := [HexChar(a[0] / 16), HexChar(a[0] % 16)];
      assert first + (ToHex(a[1..]) + ToHex(b)) == first + ToHex(a[1..]) + ToHex(b);
    }
  }

  /** Two digits to a byte, the first in the high half; an odd last digit is followed by F. */
  lemma {:induction false} PackedExact(digits: string, i: nat)
    requires AllUpperHex(digits) && i < ByteLen(|digits|)
    ensures Encode(digits).Some? && |Encode(digits).value| == (|digits| + 1) / 2
    ensures Encode(digits).value[i] ==
            16 * HexVal(digits[2 * i]) + if 2 * i + 1 < |digits| then HexVal(digits[2 * i + 1]) else 15
  {
    EncodeHex(digits);
    var padded := if |digits| % 2 == 1 then digits + "F" else digits;
    PairExact(padded, i);
  }

  lemma OnePair(digits: string)
    requires |digits| >= 2 && IsUpperHex(digits[0]) && IsUpperHex(digits[1]) && FromHex(digits[2..]).Some?
    ensures FromHex(digits) ==
            Some([16 * HexVal(digits[0]) + HexVal(digits[1])] + FromHex(digits[2..]).value)
  {
  }

  lemma {:induction false} PairExact(digits: string, i: nat)
    requires AllUpperHex(digits) && |digits| % 2 == 0 && 2 * i < |digits|
    ensures FromHex(digits).Some? && i < |FromHex(digits).value|
    ensures FromHex(digits).value[i] == 16 * HexVal(digits[2 * i]) + HexVal(digits[2 * i + 1])
    decreases i
  {
    hide FromHex, HexVal;
    FromHexOfUpper(digits[2..]);
    OnePair(digits);
    if i > 0 {
      PairExact(digits[2..], i - 1);
    }
  }
}
