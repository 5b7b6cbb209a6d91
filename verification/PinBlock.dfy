/** PIN blocks, Format 0 (security/pin_block.py): section 9.3.2 of ISO 9564-1:2011. */
module PinBlock {
  import opened Wrappers
  import opened Text
  import opened Bytes

  /** Control nibble 0, the PIN's length, the PIN, and F nibbles out to 16. */
  function BuildPinField(pin: string): string {
    LJust("0" + Format(|pin|, Hexadecimal) + pin, 16, 'F')
  }

  /** pan[-13:-1]: the last 12 digits before the check digit, or as many as there are. */
  function AccountDigits(pan: string): (s: string)
    ensures |s| <= 12
  {
    var high := if |pan| < 1 then 0 else |pan| - 1;
    var low := if |pan| < 13 then 0 else |pan| - 13;
    pan[low..high]
  }

  function BuildPanField(pan: string): string {
    var field := RJust("0000" + AccountDigits(pan), 16, '0');
    field[|field| - 16..]
  }

  /** None when a field is not hexadecimal or the result does not fit eight bytes. */
  function BuildIso0PinBlock(pin: string, pan: string): (block: Option<seq<byte>>)
    ensures block.Some? ==> |block.value| == 8
  {
    var pinInt :- ParseHex(BuildPinField(pin));
    var panInt :- ParseHex(BuildPanField(pan));
    ToBytes(Xor(pinInt, panInt), 8)
  }

  function RecoverPin(block: seq<byte>, pan: string): Option<string> {
    var panInt :- ParseHex(BuildPanField(pan));
    var pinField := Padded(Xor(FromBytes(block), panInt), Hexadecimal, 16);
    ValueOfPadded(Xor(FromBytes(block), panInt), Hexadecimal, 16);
    var length := HexVal(pinField[1]);
    Some(Truncate(pinField[2..], length))
  }

  lemma SixtyFourBits()
    ensures Capacity(Hexadecimal, 16) == Pow(2, 64) == Pow(256, 8)
  {
    assert Capacity(Hexadecimal, 4) == 0x1_0000;
    assert Capacity(Hexadecimal, 8) == 0x1_0000_0000;
    assert Capacity(Hexadecimal, 12) == 0x1_0000_0000_0000;
    assert Capacity(Hexadecimal, 16) == 0x1_0000_0000_0000_0000;
    assert Pow(2, 8) == 0x100;
    assert Pow(2, 16) == 0x1_0000;
    assert Pow(2, 24) == 0x100_0000;
    assert Pow(2, 32) == 0x1_0000_0000;
    assert Pow(2, 40) == 0x100_0000_0000;
    assert Pow(2, 48) == 0x1_0000_0000_0000;
    assert Pow(2, 56) == 0x100_0000_0000_0000;
    assert Pow(2, 64) == 0x1_0000_0000_0000_0000;
    assert Pow(256, 4) == 0x1_0000_0000;
    assert Pow(256, 8) == 0x1_0000_0000_0000_0000;
  }

  lemma PanFieldValue(pan: string)
    ensures |BuildPanField(pan)| == 16
    ensures AllDigits(pan) ==>
              AllUpperHex(BuildPanField(pan)) &&
              ParseHex(BuildPanField(pan)) == Some(Value(BuildPanField(pan), Hexadecimal))
    ensures ParseHex(BuildPanField(pan)).Some? ==> ParseHex(BuildPanField(pan)).value < Pow(2, 64)
  {
    hide Pow, Capacity, Value, Fixed;
    SixtyFourBits();
    if ParseHex(BuildPanField(pan)).Some? {
      FixedOfValue(ToUpperAll(BuildPanField(pan)));
    }
  }

  /** Four zeros and the twelve digits before the check digit; zeros stand in for those a short number lacks. */
  lemma PanFieldExact(pan: string)
    ensures |pan| >= 13 ==> BuildPanField(pan) == "0000" + pan[|pan| - 13..|pan| - 1]
    ensures 1 <= |pan| < 13 ==> BuildPanField(pan) == Repeat('0', 17 - |pan|) + pan[..|pan| - 1]
    ensures pan == "" ==> BuildPanField(pan) == Repeat('0', 16)
  {
    if |pan| < 13 {
      ShortPanField(pan, AccountDigits(pan));
    }
  }

  lemma ShortPanField(pan: string, digits: string)
    requires digits == AccountDigits(pan) && |pan| < 13
    ensures BuildPanField(pan) == Repeat('0', 16 - |digits|) + digits
  {
    hide AccountDigits;
    var field := RJust("0000" + digits, 16, '0');
    assert field == Repeat('0', 12 - |digits|) + "0000" + digits && |field| == 16 && field[0..] == field;
    assert Repeat('0', 12 - |digits|) + "0000" == Repeat('0', 16 - |digits|);
  }

  /** A zero, the length, the PIN, and F to the end. */
  lemma PinFieldExact(pin: string)
    requires |pin| <= 14
    ensures BuildPinField(pin) == "0" + ["0123456789ABCDEF"[|pin|]] + pin + Repeat('F', 14 - |pin|)
  {
    assert Format(|pin|, Hexadecimal) == [HexChar(|pin|)];
    HexValues(|pin|);
  }

  lemma PinFieldValue(pin: string)
    requires |pin| <= 14 && AllUpperHex(pin)
    ensures var field := BuildPinField(pin);
            |field| == 16 && AllUpperHex(field) && HexVal(field[1]) == |pin| && field[2..2 + |pin|] == pin
    ensures ParseHex(BuildPinField(pin)) == Some(Value(BuildPinField(pin), Hexadecimal))
    ensures Value(BuildPinField(pin), Hexadecimal) < Pow(2, 64)
    ensures Padded(Value(BuildPinField(pin), Hexadecimal), Hexadecimal, 16) == BuildPinField(pin)
  {
    hide Pow, Capacity, Value, Fixed, Padded;
    assert Format(|pin|, Hexadecimal) == [HexChar(|pin|)];
    var field := BuildPinField(pin);
    assert field == "0" + [HexChar(|pin|)] + pin + Repeat('F', 14 - |pin|);
    SixtyFourBits();
    FixedOfValue(field);
    PaddedIsFixed(Value(field, Hexadecimal), 16);
  }

  lemma RecoveredShape(block: seq<byte>, pan: string)
    requires |block| == 8 && RecoverPin(block, pan).Some?
    ensures |RecoverPin(block, pan).value| <= 14 && AllUpperHex(RecoverPin(block, pan).value)
  {
    hide Pow, Capacity, Value, BuildPanField;
    PanFieldValue(pan);
    ToFromBytes(block);
    SixtyFourBits();
    var panInt := ParseHex(BuildPanField(pan)).value;
    var n := Xor(FromBytes(block), panInt);
    XorBound(FromBytes(block), panInt, 64);
    PaddedLength(n, Hexadecimal, 16);
    ValueOfPadded(n, Hexadecimal, 16);
  }

  lemma RecoversShortPins(pin: string, pan: string)
    requires |pin| <= 14 && AllUpperHex(pin) && ParseHex(BuildPanField(pan)).Some?
    ensures BuildIso0PinBlock(pin, pan).Some?
    ensures RecoverPin(BuildIso0PinBlock(pin, pan).value, pan) == Some(pin)
  {
    hide BuildPinField, BuildPanField, ParseHex, Pow, Padded;
    PinFieldValue(pin);
    PanFieldValue(pan);
    var pinInt, panInt := Value(BuildPinField(pin), Hexadecimal), ParseHex(BuildPanField(pan)).value;
    SixtyFourBits();
    XorBound(pinInt, panInt, 64);
    FromToBytes(Xor(pinInt, panInt), 8);
    XorInverse(pinInt, panInt);
    var field := BuildPinField(pin);
    assert Truncate(field[2..], |pin|) == field[2..2 + |pin|];
  }

  /** The PIN comes back exactly when it is at most 14 upper-case hex digits and the card number is hexadecimal. */
  lemma RoundTripExact(pin: string, pan: string)
    ensures BuildIso0PinBlock(pin, pan).Some? && RecoverPin(BuildIso0PinBlock(pin, pan).value, pan) == Some(pin)
       <==> |pin| <= 14 && AllUpperHex(pin) && ParseHex(BuildPanField(pan)).Some?
  {
    hide Xor, Padded, BuildPanField, BuildPinField, ParseHex;
    if |pin| <= 14 && AllUpperHex(pin) && ParseHex(BuildPanField(pan)).Some? {
      RecoversShortPins(pin, pan);
    } else if BuildIso0PinBlock(pin, pan).Some? && RecoverPin(BuildIso0PinBlock(pin, pan).value, pan) == Some(pin) {
      RecoveredShape(BuildIso0PinBlock(pin, pan).value, pan);
      assert false;
    }
  }

  lemma {:induction false} XorCancels(a: nat, b: nat, c: nat)
    requires Xor(a, b) == Xor(a, c)
    ensures b == c
    decreases a + b + c
  {
    if a != 0 || b != 0 || c != 0 {
      XorUnfold(a, b);
      XorUnfold(a, c);
      XorCancels(a / 2, b / 2, c / 2);
    }
  }

  /** The same PIN gives two cards the same block exactly when their fields agree. */
  lemma BlocksDifferByField(pin: string, pan1: string, pan2: string)
    requires |pin| <= 14 && AllDigits(pin) && AllDigits(pan1) && AllDigits(pan2)
    ensures BuildIso0PinBlock(pin, pan1) == BuildIso0PinBlock(pin, pan2)
       <==> BuildPanField(pan1) == BuildPanField(pan2)
  {
    hide Pow, Padded, Capacity, Value, Xor, BigEndian, FromBytes, BuildPanField, BuildPinField, Fixed;
    PanFieldValue(pan1);
    PanFieldValue(pan2);
    PinFieldValue(pin);
    SixtyFourBits();
    var f1, f2 := BuildPanField(pan1), BuildPanField(pan2);
    var a, b, c := Value(BuildPinField(pin), Hexadecimal), Value(f1, Hexadecimal), Value(f2, Hexadecimal);
    XorBound(a, b, 64);
    XorBound(a, c, 64);
    if BuildIso0PinBlock(pin, pan1) == BuildIso0PinBlock(pin, pan2) {
      FromToBytes(Xor(a, b), 8);
      FromToBytes(Xor(a, c), 8);
      XorCancels(a, b, c);
      FixedOfValue(f1);
      FixedOfValue(f2);
    }
  }

  /** For cards of at least thirteen digits that is when the twelve digits before the check digit agree. */
  lemma BlocksDifferByCard(pin: string, pan1: string, pan2: string)
    requires |pin| <= 14 && AllDigits(pin) && AllDigits(pan1) && AllDigits(pan2) && |pan1| >= 13 && |pan2| >= 13
    ensures BuildIso0PinBlock(pin, pan1) == BuildIso0PinBlock(pin, pan2)
       <==> pan1[|pan1| - 13..|pan1| - 1] == pan2[|pan2| - 13..|pan2| - 1]
  {
    hide BuildIso0PinBlock, BuildPanField;
    BlocksDifferByField(pin, pan1, pan2);
    PanFieldExact(pan1);
    PanFieldExact(pan2);
    var a, b := pan1[|pan1| - 13..|pan1| - 1], pan2[|pan2| - 13..|pan2| - 1];
    assert ("0000" + a)[4..] == a && ("0000" + b)[4..] == b;
  }

  /** The value of two hex digits. */
  function Pair(s: string, i: nat): (b: byte)
    requires 2 * i + 1 < |s| && AllHex(s)
  {
    16 * HexVal(s[2 * i]) + HexVal(s[2 * i + 1])
  }

  predicate AllHex(s: string) {
    forall i | 0 <= i < |s| :: IsHex(s[i])
  }

  lemma LastPair(s: string)
    requires |s| >= 2 && |s| % 2 == 0 && AllUpperHex(s) && AllHex(s)
    ensures AllUpperHex(s[..|s| - 2])
    ensures Value(s, Hexadecimal) == 256 * Value(s[..|s| - 2], Hexadecimal) + Pair(s, |s| / 2 - 1)
  {
    assert s[..|s| - 1][..|s| - 2] == s[..|s| - 2];
  }

  lemma {:induction false} PairsXored(s: string, t: string, k: nat, i: nat)
    requires |s| == |t| == 2 * k && AllUpperHex(s) && AllUpperHex(t) && AllHex(s) && AllHex(t) && i < k
    ensures Xor(Pair(s, i), Pair(t, i)) < 256
    ensures BigEndian(Xor(Value(s, Hexadecimal), Value(t, Hexadecimal)), k)[i] == Xor(Pair(s, i), Pair(t, i))
    decreases k
  {
    hide Value, Xor, Pair;
    var a, b := s[..|s| - 2], t[..|t| - 2];
    var low, low' := Pair(s, k - 1), Pair(t, k - 1);
    LastPair(s);
    LastPair(t);
    assert Pow(2, 8) == 256;
    XorBound(low, low', 8);
    XorByte(Value(a, Hexadecimal), Value(b, Hexadecimal), low, low');
    if i < k - 1 {
      PairsXored(a, b, k - 1, i);
      SamePair(s, i, |s| - 2);
      SamePair(t, i, |t| - 2);
    }
  }

  lemma SamePair(s: string, i: nat, n: nat)
    requires AllHex(s) && 2 * i + 1 < n <= |s|
    ensures Pair(s[..n], i) == Pair(s, i)
  {
  }

  /** Byte i of a block is byte i of the PIN field XORed with byte i of the account field. */
  lemma BlockExact(pin: string, pan: string, i: nat)
    requires |pin| <= 14 && AllHex(pin) && AllHex(pan) && i < 8
    ensures var block, p, a := BuildIso0PinBlock(pin, pan), BuildPinField(pin), BuildPanField(pan);
            && |p| == |a| == 16 && AllHex(p) && AllHex(a)
            && block.Some? && block.value[i] == Xor(Pair(p, i), Pair(a, i))
  {
    hide BuildPinField, BuildPanField, Pair, Value, Xor, Pow, BigEndian, ToUpperAll;
    FieldsAreHex(pin, pan);
    var p, a := BuildPinField(pin), BuildPanField(pan);
    UpperCase(p);
    UpperCase(a);
    FieldsXored(ToUpperAll(p), ToUpperAll(a));
    PairsXored(ToUpperAll(p), ToUpperAll(a), 8, i);
  }

  lemma FieldsXored(s: string, t: string)
    requires |s| == |t| == 16 && AllUpperHex(s) && AllUpperHex(t)
    ensures Xor(Value(s, Hexadecimal), Value(t, Hexadecimal)) < Pow(256, 8)
  {
    hide Pow, Value, Xor, Capacity;
    SixtyFourBits();
    FixedOfValue(s);
    FixedOfValue(t);
    XorBound(Value(s, Hexadecimal), Value(t, Hexadecimal), 64);
  }

  lemma FieldsAreHex(pin: string, pan: string)
    requires |pin| <= 14 && AllHex(pin) && AllHex(pan)
    ensures |BuildPinField(pin)| == 16 && AllHex(BuildPinField(pin))
    ensures |BuildPanField(pan)| == 16 && AllHex(BuildPanField(pan))
  {
    hide BuildPinField, BuildPanField;
    PinFieldIsHex(pin);
    PanFieldIsHex(pan);
  }

  lemma PinFieldIsHex(pin: string)
    requires |pin| <= 14 && AllHex(pin)
    ensures |BuildPinField(pin)| == 16 && AllHex(BuildPinField(pin))
  {
    hide BuildPinField, HexChar;
    PinFieldExact(pin);
    HexValues(|pin|);
    var length, filler := HexChar(|pin|), Repeat('F', 14 - |pin|);
    assert BuildPinField(pin) == "0" + [length] + pin + filler;
    assert IsHex(length) && AllHex(filler);
  }

  lemma PanFieldIsHex(pan: string)
    requires AllHex(pan)
    ensures |BuildPanField(pan)| == 16 && AllHex(BuildPanField(pan))
  {
  }

  lemma UpperCase(s: string)
    requires AllHex(s)
    ensures AllHex(ToUpperAll(s))
    ensures forall i | 0 <= 2 * i < |s| - 1 :: Pair(ToUpperAll(s), i) == Pair(s, i)
  {
  }
}
