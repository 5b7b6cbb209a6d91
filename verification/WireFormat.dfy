/** The bytes on the wire (iso8583/parser.py:293-319): where each part of a message stands, and what each byte is. */
module WireFormat {
  import opened Wrappers
  import opened Text
  import opened Bytes
  import opened FieldCatalogue
  import opened Codec
  import Bcd
  import Bitmap

  /** Two digits to a byte, the first in the high half; F fills the last half of an odd number of digits. */
  predicate IsPacked(data: seq<byte>, digits: string) {
    && AllUpperHex(digits) && |data| == (|digits| + 1) / 2
    && forall i | 0 <= i < |data| ::
         data[i] == 16 * HexVal(digits[2 * i]) + if 2 * i + 1 < |digits| then HexVal(digits[2 * i + 1]) else 15
  }

  /** One byte a character. */
  predicate IsText(data: seq<byte>, text: string) {
    |data| == |text| && forall i | 0 <= i < |data| :: data[i] == text[i] as int
  }

  predicate IsContent(spec: FieldSpec, data: seq<byte>, v: string) {
    if spec.numeric then IsPacked(data, v) else IsText(data, v)
  }

  /** A number of fewer than a hundred in one byte, a decimal digit to each half. */
  predicate IsPair(b: byte, n: nat) {
    b == 16 * (n / 10) + n % 10
  }

  /**
    Fixed numbers have zeros in front, fixed text has blanks behind; a variable element has its length in front, in one
    byte or two.
   */
  predicate IsElement(spec: FieldSpec, data: seq<byte>, v: string) {
    match spec.lengthType
    case FIXED =>
      if spec.numeric then |v| <= spec.length && IsPacked(data, Repeat('0', spec.length - |v|) + v)
      else
        && |data| == spec.length
        && forall i | 0 <= i < |data| :: data[i] == if i < |v| then v[i] as int else 32
    case LLVAR =>
      data != [] && IsPair(data[0], |v|) && IsContent(spec, data[1..], v)
    case LLLVAR =>
      |data| >= 2 && IsPair(data[0], |v| / 100) && IsPair(data[1], |v| % 100) && IsContent(spec, data[2..], v)
  }

  lemma PackedIs(digits: string)
    requires AllUpperHex(digits)
    ensures Bcd.Encode(digits).Some? && IsPacked(Bcd.Encode(digits).value, digits)
  {
    Bcd.EncodeHex(digits);
    forall i | 0 <= i < |Bcd.Encode(digits).value|
      ensures Bcd.Encode(digits).value[i] ==
              16 * HexVal(digits[2 * i]) + if 2 * i + 1 < |digits| then HexVal(digits[2 * i + 1]) else 15
    {
      Bcd.PackedExact(digits, i);
    }
  }

  lemma ContentIs(spec: FieldSpec, v: string)
    requires if spec.numeric then AllUpperHex(v) else Latin1(v)
    ensures ContentOf(spec, v).Some? && IsContent(spec, ContentOf(spec, v).value, v)
  {
    if spec.numeric {
      PackedIs(v);
    }
  }

  lemma LastDigit(n: nat, w: nat)
    requires w > 0
    ensures Padded(n, Decimal, w + 1) == Padded(n / 10, Decimal, w) + [HexChar(n % 10)]
  {
    if n < 10 {
      assert Repeat('0', w) == Repeat('0', w - 1) + "0";
    }
  }

  /** A number of two or four digits, digit by digit. */
  lemma TwoOrFour(n: nat)
    ensures n < 100 ==> Padded(n, Decimal, 2) == [HexChar(n / 10), HexChar(n % 10)]
    ensures n < 10_000 ==>
              Padded(n, Decimal, 4) ==
              [HexChar(n / 1000), HexChar(n / 100 % 10), HexChar(n / 10 % 10), HexChar(n % 10)]
  {
    hide Padded, HexChar;
    LastDigit(n, 1);
    LastDigit(n, 3);
    LastDigit(n / 10, 2);
    LastDigit(n / 100, 1);
    OneDigit(n / 10);
    OneDigit(n / 1000);
    assert n / 10 / 10 == n / 100 && n / 100 / 10 == n / 1000;
  }

  lemma OneDigit(n: nat)
    ensures n < 10 ==> Padded(n, Decimal, 1) == [HexChar(n)]
  {
  }

  lemma LengthIs(n: nat, digits: nat)
    requires digits == 2 || digits == 4
    requires n < if digits == 2 then 100 else 10_000
    ensures Bcd.Encode(Padded(n, Decimal, digits)).Some?
    ensures var prefix := Bcd.Encode(Padded(n, Decimal, digits)).value;
            |prefix| == digits / 2 &&
            if digits == 2 then IsPair(prefix[0], n) else IsPair(prefix[0], n / 100) && IsPair(prefix[1], n % 100)
  {
    hide Padded, Bcd.Encode, Value;
    ValueOfPadded(n, Decimal, digits);
    PackedIs(Padded(n, Decimal, digits));
    TwoOrFour(n);
    if digits == 4 {
      FourDigits(n);
    }
  }

  lemma FourDigits(n: nat)
    requires n < 10_000
    ensures n / 100 / 10 == n / 1000 && n / 100 % 10 == n / 100 - 10 * (n / 1000)
    ensures n % 100 / 10 == n / 10 % 10 && n % 100 % 10 == n % 10
  {
  }

  /** Every value that fits its element takes exactly these bytes. */
  lemma ElementExact(spec: FieldSpec, v: string)
    requires Encodable(spec, v)
    ensures EncodeField(spec, v).Some? && IsElement(spec, EncodeField(spec, v).value, v)
  {
    if spec.lengthType == FIXED {
      FixedIs(spec, v);
    } else {
      VariableIs(spec, v);
    }
  }

  lemma FixedIs(spec: FieldSpec, v: string)
    requires Encodable(spec, v) && spec.lengthType == FIXED
    ensures EncodeField(spec, v).Some? && IsElement(spec, EncodeField(spec, v).value, v)
  {
    if spec.numeric {
      var c := RJust(v, spec.length, '0');
      assert c == Repeat('0', spec.length - |v|) + v;
      PackedIs(c);
    } else {
      FixedTextCarries(spec, v);
      var padded, data := LJust(v, spec.length, ' '), EncodeLatin1(LJust(v, spec.length, ' ')).value;
      assert EncodeField(spec, v).value == data[..spec.length];
    }
  }

  lemma VariableIs(spec: FieldSpec, v: string)
    requires Encodable(spec, v) && spec.lengthType != FIXED
    ensures EncodeField(spec, v).Some? && IsElement(spec, EncodeField(spec, v).value, v)
  {
    hide Bcd.Encode, ContentOf, IsPair, IsContent, Padded;
    var digits := if spec.lengthType == LLVAR then 2 else 4;
    LengthIs(|v|, digits);
    ContentIs(spec, v);
    var prefix, content := Bcd.Encode(Padded(|v|, Decimal, digits)).value, ContentOf(spec, v).value;
    assert (prefix + content)[|prefix|..] == content;
  }

  /** What a receiver makes of a value: text without the blanks at its end, numbers with their zeros. */
  lemma CanonicalExact(spec: FieldSpec, v: string)
    requires Encodable(spec, v)
    ensures spec.lengthType != FIXED ==> Canonical(spec, v) == v
    ensures spec.lengthType == FIXED && spec.numeric ==> Canonical(spec, v) == Repeat('0', spec.length - |v|) + v
    ensures spec.lengthType == FIXED && !spec.numeric && spec.binary ==>
              |Canonical(spec, v)| == spec.length
              && forall i | 0 <= i < spec.length :: Canonical(spec, v)[i] == if i < |v| then v[i] else ' '
    ensures spec.lengthType == FIXED && !spec.numeric && !spec.binary ==>
              var c := Canonical(spec, v);
              && |c| <= |v| && |c| <= spec.length && c == v[..|c|]
              && (c != "" ==> !IsSpace(c[|c| - 1]))
              && forall i | |c| <= i < |v| && i < spec.length :: IsSpace(v[i])
  {
    if spec.lengthType == FIXED && !spec.numeric {
      var padded, c := Truncate(LJust(v, spec.length, ' '), spec.length), Canonical(spec, v);
      assert |padded| == spec.length;
      assert forall i | 0 <= i < spec.length :: padded[i] == if i < |v| then v[i] else ' ';
      if !spec.binary && c != "" {
        assert padded[|c| - 1] == c[|c| - 1] && !IsSpace(c[|c| - 1]);
      }
    }
  }

  /** Element de stands in raw between these places, with its value. */
  predicate Stands(
      catalogue: Catalogue, raw: seq<byte>, low: nat, high: nat, de: Bitmap.Element,
      fields: map<Bitmap.Element, string>)
  {
    && de in fields && de in catalogue && low <= high <= |raw|
    && IsElement(catalogue[de], raw[low..high], fields[de])
  }

  /** des[i] stands between starts[i] and starts[i + 1]. */
  predicate AreElements(
      catalogue: Catalogue, raw: seq<byte>, des: seq<Bitmap.Element>, starts: seq<nat>,
      fields: map<Bitmap.Element, string>)
  {
    && |starts| == |des| + 1
    && forall i, j | 0 <= i < |des| && j == i + 1 :: Stands(catalogue, raw, starts[i], starts[j], des[i], fields)
  }

  lemma {:induction false} BodyIs(
      catalogue: Catalogue, head: seq<byte>, des: seq<Bitmap.Element>, fields: map<Bitmap.Element, string>)
    returns (starts: seq<nat>)
    requires forall de | de in des :: de in fields
    requires EncodableAll(catalogue, des, fields)
    ensures EncodeFields(catalogue, des, fields).Some?
    ensures AreElements(catalogue, head + EncodeFields(catalogue, des, fields).value, des, starts, fields)
    ensures starts[0] == |head| && starts[|des|] == |head + EncodeFields(catalogue, des, fields).value|
    decreases |des|
  {
    hide Stands, EncodeField, Encodable;
    if des == [] {
      starts := [|head|];
    } else {
      var d, tail := des[0], des[1..];
      var first := EncodeField(catalogue[d], fields[d]);
      FirstStands(catalogue, head, des, fields);
      var later := BodyIs(catalogue, head + first.value, tail, fields);
      var rest := EncodeFields(catalogue, tail, fields).value;
      starts := [|head|] + later;
      assert head + (first.value + rest) == (head + first.value) + rest;
      forall i, j | 0 <= i < |des| && j == i + 1
        ensures Stands(catalogue, head + (first.value + rest), starts[i], starts[j], des[i], fields)
      {
        if i > 0 {
          assert des[i] == tail[i - 1] && starts[i] == later[i - 1] && starts[j] == later[j - 1];
        }
      }
    }
  }

  lemma FirstStands(
      catalogue: Catalogue, head: seq<byte>, des: seq<Bitmap.Element>, fields: map<Bitmap.Element, string>)
    requires des != [] && des[0] in fields && des[0] in catalogue && Encodable(catalogue[des[0]], fields[des[0]])
    ensures var first := EncodeField(catalogue[des[0]], fields[des[0]]);
            && first.Some?
            && forall rest: seq<byte> ::
                 Stands(catalogue, head + first.value + rest, |head|, |head + first.value|, des[0], fields)
  {
    hide IsElement, EncodeField, Encodable;
    ElementExact(catalogue[des[0]], fields[des[0]]);
    var first := EncodeField(catalogue[des[0]], fields[des[0]]).value;
    forall rest: seq<byte>
      ensures Stands(catalogue, head + first + rest, |head|, |head + first|, des[0], fields)
    {
      assert (head + first + rest)[|head|..|head + first|] == first;
    }
  }

  /**
    The type in two bytes, the bitmap in eight, or in sixteen when an element exceeds 64, and then the elements in
    ascending order, without gaps, to the end.
   */
  lemma BuiltExact(catalogue: Catalogue, m: Message) returns (des: seq<Bitmap.Element>, starts: seq<nat>)
    requires Carries(catalogue, m)
    ensures Build(catalogue, m.mti, m.fields).Some?
    ensures (set de | de in des) == m.fields.Keys && forall i, j | 0 <= i < j < |des| :: des[i] < des[j]
    ensures var raw, front := Build(catalogue, m.mti, m.fields).value, Front(m.fields.Keys);
            && front <= |raw| && IsPacked(raw[..2], m.mti) && Bitmap.Build(m.fields.Keys) == Some(raw[2..front])
            && AreElements(catalogue, raw, des, starts, m.fields) && starts[0] == front && starts[|des|] == |raw|
  {
    hide Bcd.Encode, EncodeFields, Stands, Encodable, Bitmap.Build, IsPacked, Bitmap.AnnouncesJust;
    var keys := m.fields.Keys;
    des := Bitmap.Ascending(keys, 128);
    PackedIs(m.mti);
    Bcd.EncodeHex(m.mti);
    Bitmap.BuiltExact(keys, 1);
    var head, bitmap := Bcd.Encode(m.mti).value, Bitmap.Build(keys).value;
    starts := BodyIs(catalogue, head + bitmap, des, m.fields);
    var raw := head + bitmap + EncodeFields(catalogue, des, m.fields).value;
    assert raw[..2] == head && raw[2..2 + |bitmap|] == bitmap;
  }

  /** Where the elements start. */
  function Front(elements: set<Bitmap.Element>): nat {
    if exists de | de in elements :: de > 64 then 18 else 10
  }
}
