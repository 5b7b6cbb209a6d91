/** build_message and parse_message (iso8583/parser.py:293-376) over an arbitrary catalogue. */
module Codec {
  import opened Wrappers
  import opened Text
  import opened Bytes
  import opened FieldCatalogue
  import opened Bitmap
  import Bcd

  /** What parse_message returns. */
  datatype Message = Message(mti: string, fields: map<Element, string>)

  // ----- one element

  function ContentOf(spec: FieldSpec, v: string): Option<seq<byte>> {
    if spec.numeric then Bcd.Encode(v) else EncodeLatin1(v)
  }

  /** The length prefix of a variable element, then its content. */
  function EncodeVariable(spec: FieldSpec, v: string, digits: nat): Option<seq<byte>> {
    var prefix :- Bcd.Encode(Padded(|v|, Decimal, digits));
    var content :- ContentOf(spec, v);
    Some(prefix + content)
  }

  function EncodeField(spec: FieldSpec, v: string): Option<seq<byte>> {
    match spec.lengthType
    case FIXED =>
      if spec.numeric then Bcd.Encode(RJust(v, spec.length, '0'))
      else
        var data :- EncodeLatin1(LJust(v, spec.length, ' '));
        Some(Slice(data, 0, spec.length))
    case LLVAR => EncodeVariable(spec, v, 2)
    case LLLVAR => EncodeVariable(spec, v, 4)
  }

  /** The content of a variable element of the given length, and where the next element starts. */
  function ParseContent(spec: FieldSpec, length: nat, raw: seq<byte>, pos: nat): (r: (string, nat))
    ensures r.1 >= pos
  {
    if spec.numeric
    then (Bcd.Decode(Slice(raw, pos, pos + Bcd.ByteLen(length)), length), pos + Bcd.ByteLen(length))
    else (DecodeLatin1(Slice(raw, pos, pos + length)), pos + length)
  }

  function ParseField(spec: FieldSpec, raw: seq<byte>, pos: nat): (r: Option<(string, nat)>)
    ensures r.Some? ==> r.value.1 >= pos
  {
    match spec.lengthType
    case FIXED =>
      var (value, next) := ParseContent(spec, spec.length, raw, pos);
      Some((if spec.numeric || spec.binary then value else RStrip(value), next))
    case LLVAR =>
      var length :- ParseInt(Bcd.Decode(Slice(raw, pos, pos + 1), 2));
      Some(ParseContent(spec, length, raw, pos + 1))
    case LLLVAR =>
      var length :- ParseInt(Bcd.Decode(Slice(raw, pos, pos + 2), 4));
      Some(ParseContent(spec, length, raw, pos + 2))
  }

  /** The values the wire format of an element can carry. */
  predicate Encodable(spec: FieldSpec, v: string) {
    && (match spec.lengthType
        case FIXED => spec.numeric ==> |v| <= spec.length
        case LLVAR => |v| <= 99
        case LLLVAR => |v| <= 9999)
    && (if spec.numeric then AllUpperHex(v) else Latin1(v))
  }

  /** What a value looks like once it has been on the wire. */
  function Canonical(spec: FieldSpec, v: string): string {
    if spec.lengthType != FIXED then v
    else if spec.numeric then RJust(v, spec.length, '0')
    else
      var padded := Truncate(LJust(v, spec.length, ' '), spec.length);
      if spec.binary then padded else RStrip(padded)
  }

  /** data stands in raw at pos. */
  predicate Holds(raw: seq<byte>, pos: nat, data: seq<byte>) {
    pos + |data| <= |raw| && raw[pos..pos + |data|] == data
  }

  lemma HoldsSplit(raw: seq<byte>, pos: nat, a: seq<byte>, b: seq<byte>)
    requires Holds(raw, pos, a + b)
    ensures Holds(raw, pos, a) && Holds(raw, pos + |a|, b)
  {
    var all := raw[pos..pos + |a + b|];
    assert all[..|a|] == a && all[|a|..] == b;
  }

  lemma PrefixCarries(n: nat, digits: nat)
    requires digits == 2 || digits == 4
    ensures Bcd.Encode(Padded(n, Decimal, digits)).Some?
    ensures n < Capacity(Decimal, digits) ==>
              var prefix := Bcd.Encode(Padded(n, Decimal, digits)).value;
              |prefix| == digits / 2 && ParseInt(Bcd.Decode(prefix, digits)) == Some(n)
  {
    ValueOfPadded(n, Decimal, digits);
    PaddedDigits(n, digits);
    PaddedLength(n, Decimal, digits);
    Bcd.EncodeHex(Padded(n, Decimal, digits));
  }

  lemma CapacityOfPrefixes()
    ensures Capacity(Decimal, 2) == 100 && Capacity(Decimal, 4) == 10000
  {
    assert Capacity(Decimal, 2) == 100;
  }

  lemma {:induction false} DecimalBound(s: string)
    requires AllDigits(s)
    ensures Value(s, Decimal) < Capacity(Decimal, |s|)
  {
    if s != "" {
      DecimalBound(s[..|s| - 1]);
    }
  }

  lemma FixedTextCarries(spec: FieldSpec, v: string)
    requires spec.lengthType == FIXED && !spec.numeric && Latin1(v)
    ensures EncodeField(spec, v).Some? && |EncodeField(spec, v).value| == spec.length
    ensures DecodeLatin1(EncodeField(spec, v).value) == Truncate(LJust(v, spec.length, ' '), spec.length)
  {
    var padded := LJust(v, spec.length, ' ');
    Latin1RoundTrip(padded, []);
    var data := EncodeLatin1(padded).value;
    assert Slice(data, 0, spec.length) == data[..spec.length];
  }

  lemma FixedNumericRoundTrip(spec: FieldSpec, v: string, raw: seq<byte>, pos: nat)
    requires spec.lengthType == FIXED && spec.numeric && Encodable(spec, v)
    ensures EncodeField(spec, v).Some?
    ensures Holds(raw, pos, EncodeField(spec, v).value) ==>
              ParseField(spec, raw, pos) == Some((Canonical(spec, v), pos + |EncodeField(spec, v).value|))
  {
    var c := RJust(v, spec.length, '0');
    ContentRoundTrip(spec, c, raw, pos);
    assert EncodeField(spec, v) == ContentOf(spec, c) && |c| == spec.length;
  }

  lemma FixedTextRoundTrip(spec: FieldSpec, v: string, raw: seq<byte>, pos: nat)
    requires spec.lengthType == FIXED && !spec.numeric && Encodable(spec, v)
    ensures EncodeField(spec, v).Some?
    ensures Holds(raw, pos, EncodeField(spec, v).value) ==>
              ParseField(spec, raw, pos) == Some((Canonical(spec, v), pos + |EncodeField(spec, v).value|))
  {
    FixedTextCarries(spec, v);
    var data := EncodeField(spec, v).value;
    if Holds(raw, pos, data) {
      assert ParseContent(spec, spec.length, raw, pos) == (DecodeLatin1(data), pos + |data|);
    }
  }

  lemma ContentRoundTrip(spec: FieldSpec, v: string, raw: seq<byte>, pos: nat)
    requires if spec.numeric then AllUpperHex(v) else Latin1(v)
    ensures ContentOf(spec, v).Some?
    ensures Holds(raw, pos, ContentOf(spec, v).value) ==>
              ParseContent(spec, |v|, raw, pos) == (v, pos + |ContentOf(spec, v).value|)
  {
    if spec.numeric {
      Bcd.EncodeHex(v);
    } else {
      Latin1RoundTrip(v, []);
    }
  }

  lemma VariableRoundTrip(spec: FieldSpec, v: string, raw: seq<byte>, pos: nat)
    requires spec.lengthType != FIXED && Encodable(spec, v)
    ensures EncodeField(spec, v).Some?
    ensures Holds(raw, pos, EncodeField(spec, v).value) ==>
              ParseField(spec, raw, pos) == Some((v, pos + |EncodeField(spec, v).value|))
  {
    hide Bcd.Encode, Bcd.Decode, Padded, ParseInt;
    var digits := if spec.lengthType == LLVAR then 2 else 4;
    CapacityOfPrefixes();
    PrefixCarries(|v|, digits);
    var prefix := Bcd.Encode(Padded(|v|, Decimal, digits)).value;
    ContentRoundTrip(spec, v, raw, pos + |prefix|);
    var content := ContentOf(spec, v).value;
    assert EncodeField(spec, v) == Some(prefix + content);
    if Holds(raw, pos, prefix + content) {
      HoldsSplit(raw, pos, prefix, content);
      assert Slice(raw, pos, pos + digits / 2) == prefix;
    }
  }

  /** An encodable value, wherever it stands, parses to its canonical form and nothing more is consumed. */
  lemma FieldRoundTrip(spec: FieldSpec, v: string, raw: seq<byte>, pos: nat)
    requires Encodable(spec, v)
    ensures EncodeField(spec, v).Some?
    ensures Holds(raw, pos, EncodeField(spec, v).value) ==>
              ParseField(spec, raw, pos) == Some((Canonical(spec, v), pos + |EncodeField(spec, v).value|))
  {
    if spec.lengthType == FIXED {
      if spec.numeric {
        FixedNumericRoundTrip(spec, v, raw, pos);
      } else {
        FixedTextRoundTrip(spec, v, raw, pos);
      }
    } else {
      VariableRoundTrip(spec, v, raw, pos);
    }
  }

  lemma FixedNumericCorrupted(spec: FieldSpec, v: string, raw: seq<byte>, pos: nat)
    requires spec.lengthType == FIXED && spec.numeric && !Encodable(spec, v)
    ensures ParseField(spec, raw, pos).value.0 != Canonical(spec, v)
  {
    var c := RJust(v, spec.length, '0');
    assert c[|c| - |v|..] == v;
  }

  lemma TextEncodesIfLatin1(spec: FieldSpec, v: string)
    requires spec.lengthType == FIXED && !spec.numeric && EncodeField(spec, v).Some?
    ensures Latin1(v)
  {
    assert LJust(v, spec.length, ' ')[..|v|] == v;
  }

  lemma VariableCorrupted(spec: FieldSpec, v: string, raw: seq<byte>, pos: nat)
    requires spec.lengthType != FIXED && !Encodable(spec, v) && EncodeField(spec, v).Some?
    ensures ParseField(spec, raw, pos).Some? ==> ParseField(spec, raw, pos).value.0 != v
  {
    var digits := if spec.lengthType == LLVAR then 2 else 4;
    var text := Bcd.Decode(Slice(raw, pos, pos + digits / 2), digits);
    CapacityOfPrefixes();
    if ParseInt(text).Some? {
      DecimalBound(text);
      CapacityMonotone(Decimal, |text|, digits);
      var length := ParseInt(text).value;
      assert |ParseContent(spec, length, raw, pos + digits / 2).0| <= length;
    }
  }

  /** A value the format cannot carry never parses back to its canonical form. */
  lemma FieldCorrupted(spec: FieldSpec, v: string, raw: seq<byte>, pos: nat)
    requires !Encodable(spec, v) && EncodeField(spec, v).Some?
    ensures ParseField(spec, raw, pos).Some? ==> ParseField(spec, raw, pos).value.0 != Canonical(spec, v)
  {
    if spec.lengthType == FIXED {
      if spec.numeric {
        FixedNumericCorrupted(spec, v, raw, pos);
      } else {
        TextEncodesIfLatin1(spec, v);
      }
    } else {
      VariableCorrupted(spec, v, raw, pos);
    }
  }

  /** Between these surroundings the parser recovers the canonical value and finds the end of the element. */
  predicate Survives(spec: FieldSpec, v: string, before: seq<byte>, after: seq<byte>) {
    && EncodeField(spec, v).Some?
    && var data := EncodeField(spec, v).value;
       ParseField(spec, before + data + after, |before|) == Some((Canonical(spec, v), |before| + |data|))
  }

  /** One element survives the wire, in any surroundings, exactly when the format can carry it. */
  lemma FieldRoundTripExact(spec: FieldSpec, v: string)
    ensures Encodable(spec, v) <==> forall before, after :: Survives(spec, v, before, after)
  {
    hide EncodeField, ParseField, Canonical, Encodable;
    if Encodable(spec, v) {
      forall before: seq<byte>, after: seq<byte>
        ensures Survives(spec, v, before, after)
      {
        FieldRoundTrip(spec, v, [], 0);
        var data := EncodeField(spec, v).value;
        var raw := before + data + after;
        assert raw[|before|..|before| + |data|] == data;
        FieldRoundTrip(spec, v, raw, |before|);
      }
    } else {
      if EncodeField(spec, v).Some? {
        FieldCorrupted(spec, v, [] + EncodeField(spec, v).value + [], 0);
      }
      assert !Survives(spec, v, [], []);
    }
  }

  // ----- whole messages

  function EncodeFields(table: Catalogue, des: seq<Element>, fields: map<Element, string>): Option<seq<byte>>
    requires forall de | de in des :: de in fields
  {
    if des == [] then Some([])
    else if des[0] !in table then None
    else
      var first :- EncodeField(table[des[0]], fields[des[0]]);
      var rest :- EncodeFields(table, des[1..], fields);
      Some(first + rest)
  }

  /** build_message: MTI, bitmap, then the elements in ascending order; None when any part of it raises. */
  function Build(table: Catalogue, mti: string, fields: map<Element, string>): Option<seq<byte>> {
    var head :- Bcd.Encode(mti);
    var bitmap :- Bitmap.Build(fields.Keys);
    var body :- EncodeFields(table, Ascending(fields.Keys, 128), fields);
    Some(head + bitmap + body)
  }

  /** The elements des parsed from raw at pos and added to fields, and where parsing stopped. */
  function ParseFields(table: Catalogue, des: seq<Element>, raw: seq<byte>, pos: nat, fields: map<Element, string>)
    : (r: Option<(map<Element, string>, nat)>)
    ensures r.Some? ==> r.value.1 >= pos
    decreases |des|
  {
    if des == [] then Some((fields, pos))
    else if des[0] !in table then None
    else
      var (value, next) :- ParseField(table[des[0]], raw, pos);
      ParseFields(table, des[1..], raw, next, fields[des[0] := value])
  }

  /** parse_message: the message and the bytes consumed; None when the parser raises. */
  function Parse(table: Catalogue, raw: seq<byte>, offset: nat): Option<(Message, nat)> {
    var mti := Bcd.Decode(Slice(raw, offset, offset + 2), 4);
    var (present, bitmapLen) :- Bitmap.Read(raw, offset + 2);
    var (fields, pos) :- ParseFields(table, present, raw, offset + 2 + bitmapLen, map[]);
    Some((Message(mti, fields), pos - offset))
  }

  /** The messages the format can carry. */
  predicate WellFormed(table: Catalogue, mti: string, fields: map<Element, string>) {
    && |mti| == 4 && AllUpperHex(mti)
    && forall de | de in fields :: de in table && Encodable(table[de], fields[de])
  }

  /** What the elements look like to the receiver. */
  function CanonicalFields(table: Catalogue, fields: map<Element, string>): map<Element, string>
    requires fields.Keys <= table.Keys
  {
    map de | de in fields :: Canonical(table[de], fields[de])
  }

  predicate Carries(table: Catalogue, m: Message) {
    WellFormed(table, m.mti, m.fields)
  }

  function CanonicalMessage(table: Catalogue, m: Message): Message
    requires Carries(table, m)
  {
    Message(m.mti, CanonicalFields(table, m.fields))
  }

  /** Built, sent and parsed: what the other side makes of a message, or None if a side raises. */
  function Through(table: Catalogue, m: Message): Option<Message> {
    var raw :- Build(table, m.mti, m.fields);
    var parsed :- Parse(table, raw, 0);
    Some(parsed.0)
  }

  predicate EncodableAll(table: Catalogue, des: seq<Element>, fields: map<Element, string>)
    requires forall de | de in des :: de in fields
  {
    forall de | de in des :: de in table && Encodable(table[de], fields[de])
  }

  /** The canonical values of the elements des. */
  function CanonicalOf(table: Catalogue, des: seq<Element>, fields: map<Element, string>): map<Element, string>
    requires forall de | de in des :: de in fields && de in table
  {
    map de | de in des :: Canonical(table[de], fields[de])
  }

  lemma CanonicalOfTail(
      table: Catalogue, des: seq<Element>, fields: map<Element, string>, parsed: map<Element, string>)
    requires des != [] && forall de | de in des :: de in fields && de in table
    ensures parsed[des[0] := Canonical(table[des[0]], fields[des[0]])] + CanonicalOf(table, des[1..], fields) ==
            parsed + CanonicalOf(table, des, fields)
  {
    assert des == [des[0]] + des[1..];
  }

  lemma {:induction false} ParseFieldsBuilt(
      table: Catalogue, des: seq<Element>, fields: map<Element, string>, raw: seq<byte>, pos: nat,
      parsed: map<Element, string>)
    requires forall de | de in des :: de in fields
    requires EncodableAll(table, des, fields)
    ensures EncodeFields(table, des, fields).Some?
    ensures var data := EncodeFields(table, des, fields).value;
            Holds(raw, pos, data) ==>
              ParseFields(table, des, raw, pos, parsed) ==
              Some((parsed + CanonicalOf(table, des, fields), pos + |data|))
    decreases |des|
  {
    hide EncodeField, ParseField, Canonical, Encodable;
    if des == [] {
      assert parsed + CanonicalOf(table, des, fields) == parsed;
    } else {
      var d, tail := des[0], des[1..];
      var c := Canonical(table[d], fields[d]);
      FieldRoundTrip(table[d], fields[d], raw, pos);
      var first := EncodeField(table[d], fields[d]).value;
      ParseFieldsBuilt(table, tail, fields, raw, pos + |first|, parsed[d := c]);
      var rest := EncodeFields(table, tail, fields).value;
      if Holds(raw, pos, first + rest) {
        HoldsSplit(raw, pos, first, rest);
        CanonicalOfTail(table, des, fields, parsed);
      }
    }
  }

  /** Elements that are not parsed any more keep the value they have. */
  lemma {:induction false} ParseFieldsKeeps(
      table: Catalogue, des: seq<Element>, raw: seq<byte>, pos: nat, parsed: map<Element, string>, d: Element)
    requires d !in des && d in parsed && ParseFields(table, des, raw, pos, parsed).Some?
    ensures d in ParseFields(table, des, raw, pos, parsed).value.0
    ensures ParseFields(table, des, raw, pos, parsed).value.0[d] == parsed[d]
    decreases |des|
  {
    hide EncodeField, ParseField, Canonical, Encodable;
    if des != [] {
      var (value, next) := ParseField(table[des[0]], raw, pos).value;
      ParseFieldsKeeps(table, des[1..], raw, next, parsed[des[0] := value], d);
    }
  }

  /** The first element the format cannot carry comes out wrong. */
  lemma {:induction false} ParseFieldsCorrupted(
      table: Catalogue, des: seq<Element>, fields: map<Element, string>, raw: seq<byte>, pos: nat,
      parsed: map<Element, string>)
    returns (d: Element)
    requires forall de | de in des :: de in fields && de in table
    requires forall i, j | 0 <= i < j < |des| :: des[i] < des[j]
    requires !EncodableAll(table, des, fields)
    requires EncodeFields(table, des, fields).Some? && Holds(raw, pos, EncodeFields(table, des, fields).value)
    ensures d in des
    ensures ParseFields(table, des, raw, pos, parsed).Some? ==>
              var result := ParseFields(table, des, raw, pos, parsed).value.0;
              d in result && result[d] != Canonical(table[d], fields[d])
    decreases |des|
  {
    hide EncodeField, ParseField, Canonical, Encodable;
    var h, tail := des[0], des[1..];
    var first := EncodeField(table[h], fields[h]).value;
    HoldsSplit(raw, pos, first, EncodeFields(table, tail, fields).value);
    if Encodable(table[h], fields[h]) {
      FieldRoundTrip(table[h], fields[h], raw, pos);
      d := ParseFieldsCorrupted(table, tail, fields, raw, pos + |first|, parsed[h := Canonical(table[h], fields[h])]);
    } else {
      d := h;
      FieldCorrupted(table[h], fields[h], raw, pos);
      if ParseFields(table, des, raw, pos, parsed).Some? {
        var (value, next) := ParseField(table[h], raw, pos).value;
        ParseFieldsKeeps(table, tail, raw, next, parsed[h := value], h);
      }
    }
  }

  lemma {:induction false} EncodeFieldsNeedsTable(table: Catalogue, des: seq<Element>, fields: map<Element, string>)
    requires forall de | de in des :: de in fields
    requires EncodeFields(table, des, fields).Some?
    ensures forall de | de in des :: de in table
    decreases |des|
  {
    if des != [] {
      EncodeFieldsNeedsTable(table, des[1..], fields);
      assert des == [des[0]] + des[1..];
    }
  }

  /** Head, bitmap and body of a message with a four-digit MTI: where they stand and how they read back. */
  lemma Layout(table: Catalogue, mti: string, fields: map<Element, string>, raw: seq<byte>, offset: nat)
    returns (bitmap: seq<byte>, body: seq<byte>)
    requires |mti| == 4 && AllUpperHex(mti) && fields.Keys <= table.Keys
    requires Build(table, mti, fields).Some? && Holds(raw, offset, Build(table, mti, fields).value)
    ensures Bitmap.Build(fields.Keys) == Some(bitmap)
    ensures EncodeFields(table, Ascending(fields.Keys, 128), fields) == Some(body)
    ensures |Build(table, mti, fields).value| == 2 + |bitmap| + |body|
    ensures Bcd.Decode(Slice(raw, offset, offset + 2), 4) == mti
    ensures Bitmap.Read(raw, offset + 2) == Some((Ascending(fields.Keys, 128), |bitmap|))
    ensures Holds(raw, offset + 2 + |bitmap|, body)
  {
    var head := Bcd.Encode(mti).value;
    bitmap := Bitmap.Build(fields.Keys).value;
    body := EncodeFields(table, Ascending(fields.Keys, 128), fields).value;
    Bcd.EncodeHex(mti);
    HoldsSplit(raw, offset, head + bitmap, body);
    HoldsSplit(raw, offset, head, bitmap);
    ReadBuilt(fields.Keys, raw, offset + 2);
    assert Slice(raw, offset, offset + 2) == head;
  }

  lemma CarriedBuilds(table: Catalogue, mti: string, fields: map<Element, string>)
    requires WellFormed(table, mti, fields)
    ensures Build(table, mti, fields).Some?
  {
    Bcd.EncodeHex(mti);
    BuildIsBitmap(fields.Keys);
    ParseFieldsBuilt(table, Ascending(fields.Keys, 128), fields, [], 0, map[]);
  }

  /** A carried message, wherever it stands in a stream, is recovered in canonical form and exactly consumed. */
  lemma RoundTripIn(table: Catalogue, mti: string, fields: map<Element, string>, raw: seq<byte>, offset: nat)
    requires WellFormed(table, mti, fields)
    ensures Build(table, mti, fields).Some?
    ensures var built := Build(table, mti, fields).value;
            Holds(raw, offset, built) ==>
              Parse(table, raw, offset) == Some((Message(mti, CanonicalFields(table, fields)), |built|))
  {
    hide EncodeFields, ParseFields, Ascending, Bcd.Encode, Bcd.Decode, Bitmap.Read, Bitmap.Build, Canonical,
         Encodable;
    CarriedBuilds(table, mti, fields);
    if Holds(raw, offset, Build(table, mti, fields).value) {
      var bitmap, body := Layout(table, mti, fields, raw, offset);
      var des := Ascending(fields.Keys, 128);
      ParseFieldsBuilt(table, des, fields, raw, offset + 2 + |bitmap|, map[]);
      assert map[] + CanonicalOf(table, des, fields) == CanonicalFields(table, fields);
    }
  }

  lemma CarriedThrough(table: Catalogue, m: Message)
    requires Carries(table, m)
    ensures Through(table, m) == Some(CanonicalMessage(table, m))
  {
    hide Build, Parse, CanonicalFields, WellFormed;
    CarriedBuilds(table, m.mti, m.fields);
    RoundTripIn(table, m.mti, m.fields, Build(table, m.mti, m.fields).value, 0);
  }

  /** The same, with the surrounding bytes spelled out. */
  lemma RoundTrip(table: Catalogue, mti: string, fields: map<Element, string>, before: seq<byte>, after: seq<byte>)
    requires WellFormed(table, mti, fields)
    ensures Build(table, mti, fields).Some?
    ensures var built := Build(table, mti, fields).value;
            Parse(table, before + built + after, |before|) ==
            Some((Message(mti, CanonicalFields(table, fields)), |built|))
  {
    CarriedBuilds(table, mti, fields);
    var built := Build(table, mti, fields).value;
    assert (before + built + after)[|before|..|before| + |built|] == built;
    RoundTripIn(table, mti, fields, before + built + after, |before|);
  }

  /** The receiver sees what the canonical form says. */
  predicate Delivered(table: Catalogue, mti: string, fields: map<Element, string>) {
    && Build(table, mti, fields).Some?
    && fields.Keys <= table.Keys
    && var built := Build(table, mti, fields).value;
       Parse(table, built, 0) == Some((Message(mti, CanonicalFields(table, fields)), |built|))
  }

  /** A message is delivered exactly when the format can carry it. */
  lemma RoundTripExact(table: Catalogue, mti: string, fields: map<Element, string>)
    ensures Delivered(table, mti, fields) <==> WellFormed(table, mti, fields)
  {
    if WellFormed(table, mti, fields) {
      CarriedBuilds(table, mti, fields);
      RoundTripIn(table, mti, fields, Build(table, mti, fields).value, 0);
    } else if Delivered(table, mti, fields) {
      DeliveredMti(table, mti, fields);
      var built := Build(table, mti, fields).value;
      var bitmap, body := Layout(table, mti, fields, built, 0);
      var d := ParseFieldsCorrupted(
        table, Ascending(fields.Keys, 128), fields, built, 2 + |bitmap|, map[]);
      assert false;
    }
  }

  lemma DeliveredMti(table: Catalogue, mti: string, fields: map<Element, string>)
    ensures Delivered(table, mti, fields) ==> |mti| == 4 && AllUpperHex(mti)
  {
    if Delivered(table, mti, fields) {
      var built := Build(table, mti, fields).value;
      assert mti == Bcd.Decode(Slice(built, 0, 2), 4);
      BuildIsBitmap(fields.Keys);
      assert |built| >= 2;
    }
  }

  // ----- canonical forms

  lemma CanonicalField(spec: FieldSpec, v: string)
    requires Encodable(spec, v)
    ensures Encodable(spec, Canonical(spec, v))
    ensures Canonical(spec, Canonical(spec, v)) == Canonical(spec, v)
  {
    if spec.lengthType == FIXED && !spec.numeric && !spec.binary {
      var c := Canonical(spec, v);
      var padded := LJust(c, spec.length, ' ');
      assert |c| <= spec.length && Truncate(padded, spec.length) == padded;
      StripOfPadded(c, spec.length);
    }
  }

  lemma {:induction false} StripOfPadded(c: string, width: nat)
    requires c != "" ==> !IsSpace(c[|c| - 1])
    ensures RStrip(LJust(c, width, ' ')) == c
    decreases width
  {
    if |c| < width {
      var padded := LJust(c, width, ' ');
      assert padded[..width - 1] == LJust(c, width - 1, ' ');
      StripOfPadded(c, width - 1);
    }
  }

  /** A delivered message can be sent on, and arrives unchanged. */
  lemma CanonicalIsStable(table: Catalogue, mti: string, fields: map<Element, string>)
    requires WellFormed(table, mti, fields)
    ensures WellFormed(table, mti, CanonicalFields(table, fields))
    ensures CanonicalFields(table, CanonicalFields(table, fields)) == CanonicalFields(table, fields)
  {
    forall de | de in fields
      ensures Encodable(table[de], Canonical(table[de], fields[de]))
      ensures Canonical(table[de], Canonical(table[de], fields[de])) == Canonical(table[de], fields[de])
    {
      CanonicalField(table[de], fields[de]);
    }
  }

  /** Reading a text element strips only the spaces it was padded with, or could have been. */
  predicate StripsOnlySpaces(spec: FieldSpec, v: string) {
    spec.lengthType == FIXED && !spec.numeric && !spec.binary ==>
      var padded := Truncate(LJust(v, spec.length, ' '), spec.length);
      forall i | |RStrip(padded)| <= i < |padded| :: padded[i] == ' '
  }

  lemma RebuildTextExact(spec: FieldSpec, v: string)
    requires spec.lengthType == FIXED && !spec.numeric && !spec.binary && Latin1(v)
    ensures EncodeField(spec, Canonical(spec, v)) == EncodeField(spec, v) <==> StripsOnlySpaces(spec, v)
  {
    var padded := Truncate(LJust(v, spec.length, ' '), spec.length);
    var c := Canonical(spec, v);
    var again := LJust(c, spec.length, ' ');
    FixedTextCarries(spec, v);
    FixedTextCarries(spec, c);
    assert Truncate(again, spec.length) == again;
    assert again == padded <==> StripsOnlySpaces(spec, v) by {
      if StripsOnlySpaces(spec, v) {
        assert again == padded;
      } else {
        var i :| |c| <= i < |padded| && padded[i] != ' ';
        assert again[i] == ' ';
      }
    }
    var a, b := EncodeField(spec, v).value, EncodeField(spec, c).value;
    Latin1RoundTrip([], a);
    Latin1RoundTrip([], b);
  }

  lemma RebuildFieldExact(spec: FieldSpec, v: string)
    requires Encodable(spec, v)
    ensures EncodeField(spec, v).Some? && EncodeField(spec, Canonical(spec, v)).Some?
    ensures |EncodeField(spec, Canonical(spec, v)).value| == |EncodeField(spec, v).value|
    ensures EncodeField(spec, Canonical(spec, v)) == EncodeField(spec, v) <==> StripsOnlySpaces(spec, v)
  {
    CanonicalField(spec, v);
    FieldRoundTrip(spec, v, [], 0);
    FieldRoundTrip(spec, Canonical(spec, v), [], 0);
    if spec.lengthType == FIXED && !spec.numeric {
      FixedTextCarries(spec, v);
      FixedTextCarries(spec, Canonical(spec, v));
      if spec.binary {
        assert LJust(Canonical(spec, v), spec.length, ' ') == Canonical(spec, v);
        Latin1RoundTrip([], EncodeField(spec, v).value);
        Latin1RoundTrip([], EncodeField(spec, Canonical(spec, v)).value);
      } else {
        RebuildTextExact(spec, v);
      }
    }
  }

  lemma {:induction false} RebuildFieldsExact(table: Catalogue, des: seq<Element>, fields: map<Element, string>)
    requires fields.Keys <= table.Keys && forall de | de in des :: de in fields
    requires EncodableAll(table, des, fields)
    ensures EncodeFields(table, des, fields).Some?
    ensures EncodeFields(table, des, CanonicalFields(table, fields)).Some?
    ensures |EncodeFields(table, des, CanonicalFields(table, fields)).value| ==
            |EncodeFields(table, des, fields).value|
    ensures EncodeFields(table, des, CanonicalFields(table, fields)) == EncodeFields(table, des, fields)
       <==> forall de | de in des :: StripsOnlySpaces(table[de], fields[de])
    decreases |des|
  {
    hide EncodeField, Canonical, Encodable, StripsOnlySpaces;
    if des != [] {
      var canon := CanonicalFields(table, fields);
      var d, tail := des[0], des[1..];
      RebuildFieldExact(table[d], fields[d]);
      RebuildFieldsExact(table, tail, fields);
      var a, b := EncodeField(table[d], fields[d]).value, EncodeField(table[d], canon[d]).value;
      var as', bs := EncodeFields(table, tail, fields).value, EncodeFields(table, tail, canon).value;
      assert (a + as')[..|a|] == a && (a + as')[|a|..] == as';
      assert (b + bs)[..|a|] == b && (b + bs)[|a|..] == bs;
      assert des == [d] + tail;
    }
  }

  /** Sending a received message on gives the very same bytes exactly when no text element lost other white space. */
  lemma RebuildExact(table: Catalogue, mti: string, fields: map<Element, string>)
    requires WellFormed(table, mti, fields)
    ensures Build(table, mti, CanonicalFields(table, fields)).Some?
    ensures Build(table, mti, CanonicalFields(table, fields)) == Build(table, mti, fields)
       <==> forall de | de in fields :: StripsOnlySpaces(table[de], fields[de])
  {
    hide EncodeFields, Ascending, Bcd.Encode, Bitmap.Build, StripsOnlySpaces, Canonical, Encodable;
    var canon := CanonicalFields(table, fields);
    var des := Ascending(fields.Keys, 128);
    CarriedBuilds(table, mti, fields);
    assert canon.Keys == fields.Keys;
    RebuildFieldsExact(table, des, fields);
    var front := Bcd.Encode(mti).value + Bitmap.Build(fields.Keys).value;
    var a, b := EncodeFields(table, des, fields).value, EncodeFields(table, des, canon).value;
    assert (front + a)[|front|..] == a && (front + b)[|front|..] == b;
  }

  // ----- size

  /** How many bytes an element takes: digits two to a byte, and one or two bytes of length before a variable one. */
  function FieldLength(spec: FieldSpec, v: string): nat {
    match spec.lengthType
    case FIXED => if spec.numeric then Bcd.ByteLen(spec.length) else spec.length
    case LLVAR => 1 + if spec.numeric then Bcd.ByteLen(|v|) else |v|
    case LLLVAR => 2 + if spec.numeric then Bcd.ByteLen(|v|) else |v|
  }

  function BodyLength(table: Catalogue, des: seq<Element>, fields: map<Element, string>): nat
    requires forall de | de in des :: de in fields && de in table
  {
    if des == [] then 0 else FieldLength(table[des[0]], fields[des[0]]) + BodyLength(table, des[1..], fields)
  }

  /** MTI, bitmap and elements. */
  function MessageLength(table: Catalogue, fields: map<Element, string>): nat
    requires fields.Keys <= table.Keys
  {
    2 + Bitmap.Length(fields.Keys) + BodyLength(table, Ascending(fields.Keys, 128), fields)
  }

  lemma FieldLengthExact(spec: FieldSpec, v: string)
    requires Encodable(spec, v)
    ensures EncodeField(spec, v).Some? && |EncodeField(spec, v).value| == FieldLength(spec, v)
  {
    FieldRoundTrip(spec, v, [], 0);
    if spec.lengthType == FIXED {
      if spec.numeric {
        JustifiedHex(v, spec.length);
        Bcd.EncodeHex(RJust(v, spec.length, '0'));
      }
    } else {
      CapacityOfPrefixes();
      PrefixCarries(|v|, if spec.lengthType == LLVAR then 2 else 4);
      ContentRoundTrip(spec, v, [], 0);
      if spec.numeric {
        Bcd.EncodeHex(v);
      }
    }
  }

  lemma JustifiedHex(v: string, width: nat)
    requires AllUpperHex(v)
    ensures AllUpperHex(RJust(v, width, '0'))
  {
  }

  lemma {:induction false} BodyLengthExact(table: Catalogue, des: seq<Element>, fields: map<Element, string>)
    requires forall de | de in des :: de in fields && de in table && Encodable(table[de], fields[de])
    ensures EncodeFields(table, des, fields).Some?
    ensures |EncodeFields(table, des, fields).value| == BodyLength(table, des, fields)
    decreases |des|
  {
    hide EncodeField, FieldLength, Encodable;
    if des != [] {
      FieldLengthExact(table[des[0]], fields[des[0]]);
      BodyLengthExact(table, des[1..], fields);
    }
  }

  /** A message takes exactly the bytes of its MTI, its bitmap and its elements. */
  lemma MessageLengthExact(table: Catalogue, m: Message)
    requires Carries(table, m)
    ensures Build(table, m.mti, m.fields).Some?
    ensures |Build(table, m.mti, m.fields).value| == MessageLength(table, m.fields)
  {
    hide EncodeFields, BodyLength, Bcd.Encode, Bitmap.Build;
    CarriedBuilds(table, m.mti, m.fields);
    Bcd.EncodeHex(m.mti);
    BuildIsBitmap(m.fields.Keys);
    BodyLengthExact(table, Ascending(m.fields.Keys, 128), m.fields);
  }

  /** Values no longer than the catalogue says. */
  predicate WithinLengths(table: Catalogue, fields: map<Element, string>) {
    forall de | de in fields :: de in table && |fields[de]| <= table[de].length
  }

  lemma FieldSize(spec: FieldSpec, v: string)
    requires Encodable(spec, v) && |v| <= spec.length
    ensures EncodeField(spec, v).Some? && |EncodeField(spec, v).value| <= spec.length + 2
  {
    FieldRoundTrip(spec, v, [], 0);
    if spec.lengthType == FIXED {
      if spec.numeric {
        Bcd.EncodeHex(RJust(v, spec.length, '0'));
      }
    } else {
      CapacityOfPrefixes();
      PrefixCarries(|v|, if spec.lengthType == LLVAR then 2 else 4);
      ContentRoundTrip(spec, v, [], 0);
      if spec.numeric {
        Bcd.EncodeHex(v);
      }
    }
  }

  lemma {:induction false} EncodeFieldsSnoc(
      table: Catalogue, des: seq<Element>, d: Element, fields: map<Element, string>)
    requires forall de | de in des + [d] :: de in fields
    requires EncodeFields(table, des, fields).Some? && d in table && EncodeField(table[d], fields[d]).Some?
    ensures EncodeFields(table, des + [d], fields) ==
            Some(EncodeFields(table, des, fields).value + EncodeField(table[d], fields[d]).value)
    decreases |des|
  {
    hide EncodeField;
    if des == [] {
      var last := EncodeField(table[d], fields[d]).value;
      assert des + [d] == [d] && [d][1..] == [];
      assert last + [] == last == [] + last;
    } else {
      assert (des + [d])[1..] == des[1..] + [d];
      EncodeFieldsSnoc(table, des[1..], d, fields);
      var first, last := EncodeField(table[des[0]], fields[des[0]]).value, EncodeField(table[d], fields[d]).value;
      var rest := EncodeFields(table, des[1..], fields).value;
      assert first + (rest + last) == (first + rest) + last;
    }
  }

  function Clamp(n: int, high: nat): nat {
    if n < 0 then 0 else if n > high then high else n
  }

  /** Upper bound on what the elements 2..k of ISO 8583:1987 take: 34 of them can be long. */
  function SizeBound(k: nat): nat {
    257 * k + 744 * (Clamp(k - 45, 3) + Clamp(k - 55, 8) + Clamp(k - 104, 23))
  }

  predicate StandardLengths(table: Catalogue) {
    forall de | de in table ::
      table[de].length <= if 46 <= de <= 48 || 56 <= de <= 63 || 105 <= de <= 127 then 999 else 255
  }

  lemma {:induction false} FieldsSize(table: Catalogue, fields: map<Element, string>, k: nat)
    requires StandardLengths(table) && WithinLengths(table, fields)
    requires forall de | de in fields :: Encodable(table[de], fields[de])
    ensures EncodeFields(table, Ascending(fields.Keys, k), fields).Some?
    ensures |EncodeFields(table, Ascending(fields.Keys, k), fields).value| <= SizeBound(k)
    decreases k
  {
    hide EncodeField, Encodable;
    if k >= 2 {
      FieldsSize(table, fields, k - 1);
      if k in fields {
        FieldSize(table[k], fields[k]);
        EncodeFieldsSnoc(table, Ascending(fields.Keys, k - 1), k, fields);
      }
    }
  }

  lemma CatalogueLength(de: Element)
    requires SpecOf(de).Some?
    ensures SpecOf(de).value.length <=
            if 46 <= de <= 48 || 56 <= de <= 63 || 105 <= de <= 127 then 999 else 255
  {
  }

  lemma CatalogueLengths()
    ensures StandardLengths(FIELD_SPECS)
  {
    hide SpecOf;
    forall de | de in FIELD_SPECS
      ensures FIELD_SPECS[de].length <=
              if 46 <= de <= 48 || 56 <= de <= 63 || 105 <= de <= 127 then 999 else 255
    {
      CatalogueLength(de);
    }
  }

  lemma MessageSize(table: Catalogue, mti: string, fields: map<Element, string>)
    requires StandardLengths(table) && WellFormed(table, mti, fields) && WithinLengths(table, fields)
    ensures Build(table, mti, fields).Some?
    ensures |Build(table, mti, fields).value| < 65536
  {
    CarriedBuilds(table, mti, fields);
    Bcd.EncodeHex(mti);
    BuildIsBitmap(fields.Keys);
    FieldsSize(table, fields, 128);
  }

  /** Under the standard catalogue no message reaches 65,536 bytes, so its length always fits the 2-byte header. */
  lemma StandardMessageSize(mti: string, fields: map<Element, string>)
    ensures WellFormed(FIELD_SPECS, mti, fields) && WithinLengths(FIELD_SPECS, fields) ==>
              Build(FIELD_SPECS, mti, fields).Some? && |Build(FIELD_SPECS, mti, fields).value| < 65536
  {
    hide Build, WellFormed, WithinLengths;
    CatalogueLengths();
    if WellFormed(FIELD_SPECS, mti, fields) && WithinLengths(FIELD_SPECS, fields) {
      MessageSize(FIELD_SPECS, mti, fields);
    }
  }

  // ----- the loops

  function Append(out: seq<byte>, rest: Option<seq<byte>>): Option<seq<byte>> {
    var tail :- rest;
    Some(out + tail)
  }

  lemma AppendStep(out: seq<byte>, data: Option<seq<byte>>, rest: Option<seq<byte>>)
    ensures data.Some? && rest.Some? ==> Append(out, Some(data.value + rest.value)) == Append(out + data.value, rest)
  {
    if data.Some? && rest.Some? {
      assert out + (data.value + rest.value) == (out + data.value) + rest.value;
    }
  }

  method BuildMessage(table: Catalogue, mti: string, fields: map<Element, string>) returns (r: Option<seq<byte>>)
    ensures r == Build(table, mti, fields)
  {
    hide EncodeField, Bcd.Encode, Ascending, Bitmap.Build;
    var head := Bcd.Encode(mti);
    if head.None? {
      return None;
    }
    var out := head.value;
    var bitmap := BuildBitmap(fields.Keys);
    if bitmap.None? {
      return None;
    }
    out := out + bitmap.value;
    var des := Ascending(fields.Keys, 128);
    ghost var whole := Build(table, mti, fields);
    for i := 0 to |des|
      invariant forall de | de in des[i..] :: de in fields
      invariant whole == Append(out, EncodeFields(table, des[i..], fields))
    {
      var de := des[i];
      assert des[i..][1..] == des[i + 1..];
      if de !in table {
        return None;
      }
      AppendStep(out, EncodeField(table[de], fields[de]), EncodeFields(table, des[i + 1..], fields));
      var data := EncodeField(table[de], fields[de]);
      if data.None? {
        return None;
      }
      out := out + data.value;
    }
    assert out + [] == out;
    r := Some(out);
  }

  method ParseMessage(table: Catalogue, raw: seq<byte>, offset: nat) returns (r: Option<(Message, nat)>)
    ensures r == Parse(table, raw, offset)
  {
    hide ParseField;
    var pos := offset;
    var mti := Bcd.Decode(Slice(raw, pos, pos + 2), 4);
    pos := pos + 2;
    var bitmap := ReadBitmap(raw, pos);
    if bitmap.None? {
      return None;
    }
    var (present, bitmapLen) := bitmap.value;
    pos := pos + bitmapLen;
    var fields: map<Element, string> := map[];
    ghost var whole := ParseFields(table, present, raw, pos, fields);
    for i := 0 to |present|
      invariant pos >= offset
      invariant ParseFields(table, present[i..], raw, pos, fields) == whole
    {
      var de := present[i];
      assert present[i..][1..] == present[i + 1..];
      if de !in table {
        return None;
      }
      var parsed := ParseField(table[de], raw, pos);
      if parsed.None? {
        return None;
      }
      fields := fields[de := parsed.value.0];
      pos := parsed.value.1;
    }
    r := Some((Message(mti, fields), pos - offset));
  }
}
