/**
  Purchases with any entry mode whatever (api/schemas.py:17 sets no bound): what the switch reads of them. DE 22 is
  built from all the digits there are, and parsed as two bytes; when it was not two bytes long, every later element is
  read from the wrong place.
 */
module EntryModes {
  import opened Wrappers
  import opened Text
  import opened Bytes
  import opened FieldCatalogue
  import opened Codec
  import opened HostSwitch
  import opened Transport
  import Bcd
  import Bitmap
  import Correlation

  /** The same request with an entry mode that fits. */
  function Fitted(r: Request): Request {
    r.(entryMode := "05")
  }

  predicate IsRrn(rrn: string) {
    |rrn| == 12 && AllDigits(rrn)
  }

  /** A purchase whose values fit their elements, but for the entry mode, which may be anything. */
  predicate IsPurchase(r: Request) {
    Sound(Fitted(r)) && r.accountId2.None? && IsRrn(r.rrn)
  }

  /** All values fit their elements, but a purchase's entry mode may be anything. */
  predicate FitsButMode(r: Request) {
    Sound(r) || (Sound(Fitted(r)) && r.accountId2.None?)
  }

  /** What DE 22 is built as, or None when build_message raises. */
  function ModeBytes(entryMode: string): Option<seq<byte>> {
    EncodeField(Digits(3), entryMode)
  }

  function RrnBytes(r: Request): seq<byte>
    requires IsPurchase(r)
  {
    EncodeLatin1(r.rrn).value
  }

  function CurrencyBytes(r: Request): seq<byte>
    requires IsPurchase(r)
  {
    Bcd.EncodeHex(RJust(r.currencyCode, 3, '0'));
    EncodeField(Digits(3), r.currencyCode).value
  }

  /** DE 22, DE 37 and DE 49, one after the other. */
  function Wire(r: Request): (w: seq<byte>)
    requires IsPurchase(r) && ModeBytes(r.entryMode).Some?
  {
    ModeBytes(r.entryMode).value + (RrnBytes(r) + CurrencyBytes(r))
  }

  lemma WireLength(r: Request)
    requires IsPurchase(r) && ModeBytes(r.entryMode).Some?
    ensures |RrnBytes(r)| == 12 && |CurrencyBytes(r)| == 2 && |Wire(r)| == |ModeBytes(r.entryMode).value| + 14
    ensures EncodeField(Chars(12), r.rrn) == Some(RrnBytes(r))
  {
    hide EncodeField, EncodeLatin1;
    RrnEncodes(r);
    CurrencyEncodes(r);
  }

  lemma RrnEncodes(r: Request)
    requires IsPurchase(r)
    ensures |RrnBytes(r)| == 12 && EncodeField(Chars(12), r.rrn) == Some(RrnBytes(r))
  {
    hide Sound;
    var data := EncodeLatin1(r.rrn).value;
    assert Slice(data, 0, 12) == data;
  }

  lemma CurrencyEncodes(r: Request)
    requires IsPurchase(r)
    ensures |CurrencyBytes(r)| == 2 && EncodeField(Digits(3), r.currencyCode) == Some(CurrencyBytes(r))
  {
    var code := RJust(r.currencyCode, 3, '0');
    assert AllUpperHex(code) && |code| == 3;
    Bcd.EncodeHex(code);
  }

  /** What is read for DE 37: twelve bytes from the third on, whatever element they were built for. */
  function RrnText(r: Request): string
    requires IsPurchase(r) && ModeBytes(r.entryMode).Some?
  {
    WireLength(r);
    RStrip(DecodeLatin1(Wire(r)[2..14]))
  }

  /** DE 22 takes the two bytes it is given. */
  predicate IsAligned(entryMode: string) {
    ModeBytes(entryMode).Some? && |ModeBytes(entryMode).value| == 2
  }

  // ----- lists of elements

  lemma {:induction false} AscendingSplit(elements: set<Element>, low: nat, high: nat) returns (rest: seq<Element>)
    requires low <= high
    ensures Bitmap.Ascending(elements, high) == Bitmap.Ascending(elements, low) + rest
    ensures forall n | n in rest :: low < n <= high && n in elements
    decreases high
  {
    if low == high {
      rest := [];
    } else {
      rest := AscendingSplit(elements, low, high - 1);
      if 2 <= high && high in elements {
        rest := rest + [high];
      }
    }
  }

  lemma {:induction false} EncodeFieldsSplit(
      table: Catalogue, a: seq<Element>, b: seq<Element>, fields: map<Element, string>)
    requires forall de | de in a + b :: de in fields
    requires (forall de | de in a :: de in fields) && (forall de | de in b :: de in fields)
    requires EncodeFields(table, a, fields).Some? && EncodeFields(table, b, fields).Some?
    ensures EncodeFields(table, a + b, fields) ==
            Some(EncodeFields(table, a, fields).value + EncodeFields(table, b, fields).value)
    decreases |a|
  {
    hide EncodeField;
    if a == [] {
      assert a + b == b;
      assert [] + EncodeFields(table, b, fields).value == EncodeFields(table, b, fields).value;
    } else {
      assert (a + b)[1..] == a[1..] + b;
      EncodeFieldsSplit(table, a[1..], b, fields);
      var first := EncodeField(table[a[0]], fields[a[0]]).value;
      var rest, last := EncodeFields(table, a[1..], fields).value, EncodeFields(table, b, fields).value;
      assert first + (rest + last) == (first + rest) + last;
    }
  }

  lemma {:induction false} ParseFieldsSplit(
      table: Catalogue, a: seq<Element>, b: seq<Element>, raw: seq<byte>, pos: nat, parsed: map<Element, string>)
    requires ParseFields(table, a, raw, pos, parsed).Some?
    ensures var (fields, next) := ParseFields(table, a, raw, pos, parsed).value;
            ParseFields(table, a + b, raw, pos, parsed) == ParseFields(table, b, raw, next, fields)
    decreases |a|
  {
    hide ParseField;
    if a == [] {
      assert a + b == b;
    } else {
      assert (a + b)[1..] == a[1..] + b;
      var (value, next) := ParseField(table[a[0]], raw, pos).value;
      ParseFieldsSplit(table, a[1..], b, raw, next, parsed[a[0] := value]);
    }
  }

  /** Fixed elements parse whatever the bytes are. */
  lemma {:induction false} FixedParse(
      table: Catalogue, des: seq<Element>, raw: seq<byte>, pos: nat, parsed: map<Element, string>)
    requires forall de | de in des :: de in table && table[de].lengthType == FIXED
    ensures ParseFields(table, des, raw, pos, parsed).Some?
    decreases |des|
  {
    if des != [] {
      var (value, next) := ParseField(table[des[0]], raw, pos).value;
      FixedParse(table, des[1..], raw, next, parsed[des[0] := value]);
    }
  }

  lemma {:induction false} ParseFieldsKeys(
      table: Catalogue, des: seq<Element>, raw: seq<byte>, pos: nat, parsed: map<Element, string>)
    requires ParseFields(table, des, raw, pos, parsed).Some?
    ensures ParseFields(table, des, raw, pos, parsed).value.0.Keys == parsed.Keys + set de | de in des
    decreases |des|
  {
    hide ParseField;
    if des != [] {
      var (value, next) := ParseField(table[des[0]], raw, pos).value;
      ParseFieldsKeys(table, des[1..], raw, next, parsed[des[0] := value]);
      assert des == [des[0]] + des[1..];
    }
  }

  lemma {:induction false} OneUnbuildable(table: Catalogue, des: seq<Element>, fields: map<Element, string>, d: Element)
    requires forall de | de in des :: de in fields
    requires d in des && d in table && EncodeField(table[d], fields[d]).None?
    ensures EncodeFields(table, des, fields).None?
    decreases |des|
  {
    hide EncodeField;
    if d != des[0] {
      OneUnbuildable(table, des[1..], fields, d);
    }
  }

  // ----- DE 22, DE 37 and DE 49

  lemma ModeParses(raw: seq<byte>, pos: nat)
    ensures ParseField(Digits(3), raw, pos) == Some((Bcd.Decode(Slice(raw, pos, pos + 2), 3), pos + 2))
  {
  }

  lemma TextParses(raw: seq<byte>, pos: nat)
    ensures ParseField(Chars(12), raw, pos) == Some((RStrip(DecodeLatin1(Slice(raw, pos, pos + 12))), pos + 12))
  {
  }

  lemma MiddleEncodes(r: Request, draw: nat)
    requires IsPurchase(r) && ModeBytes(r.entryMode).Some?
    ensures var fields := RequestMessage(r, draw).fields;
            && 22 in fields && 37 in fields && 49 in fields
            && EncodeFields(FIELD_SPECS, [22, 37, 49], fields) == Some(Wire(r))
  {
    hide FIELD_SPECS, EncodeField, Correlation.Stan, Sound, RJust;
    PathElements();
    WireLength(r);
    Transport.RequestElements(r);
    var fields := RequestMessage(r, draw).fields;
    var mode, rrn, currency := ModeBytes(r.entryMode).value, RrnBytes(r), CurrencyBytes(r);
    CurrencyEncodes(r);
    assert [22, 37, 49][1..] == [37, 49] && [37, 49][1..] == [49] && [49][1..] == [];
    assert currency + [] == currency;
    assert EncodeFields(FIELD_SPECS, [49], fields) == Some(currency);
    assert EncodeFields(FIELD_SPECS, [37, 49], fields) == Some(rrn + currency);
  }

  lemma Slices(raw: seq<byte>, pos: nat, w: seq<byte>)
    requires Holds(raw, pos, w) && |w| >= 14
    ensures Slice(raw, pos, pos + 2) == w[..2] && Slice(raw, pos + 2, pos + 14) == w[2..14]
  {
    assert w == w[..2] + w[2..];
    HoldsSplit(raw, pos, w[..2], w[2..]);
    assert w[2..] == w[2..14] + w[14..];
    HoldsSplit(raw, pos + 2, w[2..14], w[14..]);
  }

  /** How the three elements parse from where DE 22 stands. */
  lemma MiddleParses(r: Request, raw: seq<byte>, pos: nat, parsed: map<Element, string>)
    requires IsPurchase(r) && ModeBytes(r.entryMode).Some? && Holds(raw, pos, Wire(r))
    ensures |Wire(r)| >= 14 && ParseFields(FIELD_SPECS, [22, 37, 49], raw, pos, parsed).Some?
    ensures var fields := ParseFields(FIELD_SPECS, [22, 37, 49], raw, pos, parsed).value.0;
            && 22 in fields && fields[22] == Bcd.Decode(Wire(r)[..2], 3)
            && 37 in fields && fields[37] == RrnText(r)
  {
    hide FIELD_SPECS, EncodeField, ParseField, IsPurchase, Wire, Holds, Bcd.Decode, Slice, RStrip, DecodeLatin1;
    PathElements();
    WireLength(r);
    ModeParses(raw, pos);
    TextParses(raw, pos + 2);
    Slices(raw, pos, Wire(r));
    assert [22, 37, 49][1..] == [37, 49] && [37, 49][1..] == [49] && [49][1..] == [];
    FixedParse(FIELD_SPECS, [49], raw, pos + 14, map[]);
  }

  // ----- the whole message

  predicate IsBefore(de: Element) {
    de == 2 || de == 3 || de == 4 || de == 11
  }

  predicate IsAfter(de: Element) {
    de == 52 || de == 53
  }

  ghost predicate AreElements(keys: set<Element>) {
    && 11 in keys && 22 in keys && 37 in keys && 49 in keys
    && forall de | de in keys :: IsBefore(de) || de == 22 || de == 37 || de == 49 || IsAfter(de)
  }

  /** The elements before DE 22, the three, and the fixed ones after them. */
  lemma ElementsAround(keys: set<Element>) returns (before: seq<Element>, after: seq<Element>)
    requires AreElements(keys)
    ensures Bitmap.Ascending(keys, 128) == before + ([22, 37, 49] + after)
    ensures 11 in before && forall de | de in before :: de in keys && IsBefore(de)
    ensures forall de | de in after :: de in keys && IsAfter(de)
  {
    hide Bitmap.Ascending, AreElements;
    before := Bitmap.Ascending(keys, 21);
    FirstElements(keys);
    var between := AscendingSplit(keys, 22, 36);
    var more := AscendingSplit(keys, 37, 48);
    NothingBetween(keys, between, more);
    after := AscendingSplit(keys, 49, 128);
    LastElements(keys, after);
    AscendingSteps(keys);
    Regroup(before, after);
  }

  lemma FirstElements(keys: set<Element>)
    requires AreElements(keys)
    ensures 22 in keys && 37 in keys && 49 in keys
    ensures 11 in Bitmap.Ascending(keys, 21)
    ensures forall de | de in Bitmap.Ascending(keys, 21) :: de in keys && IsBefore(de)
  {
    hide Bitmap.Ascending;
  }

  lemma NothingBetween(keys: set<Element>, between: seq<Element>, more: seq<Element>)
    requires AreElements(keys) && forall n | n in between :: 22 < n <= 36 && n in keys
    requires forall n | n in more :: 37 < n <= 48 && n in keys
    ensures between == [] && more == []
  {
    assert forall n :: n !in between && n !in more;
    NothingIn(between);
    NothingIn(more);
  }

  lemma LastElements(keys: set<Element>, after: seq<Element>)
    requires AreElements(keys) && forall n | n in after :: 49 < n <= 128 && n in keys
    ensures forall n | n in after :: n in keys && IsAfter(n)
  {
  }

  lemma Regroup(before: seq<Element>, after: seq<Element>)
    ensures before + [22] + [] + [37] + [] + [49] + after == before + ([22, 37, 49] + after)
  {
  }

  lemma NothingIn(des: seq<Element>)
    ensures des == [] <==> forall n :: n !in des
  {
    if des != [] {
      assert des[0] in des;
    }
  }

  lemma AscendingSteps(keys: set<Element>)
    requires 22 in keys && 37 in keys && 49 in keys
    ensures Bitmap.Ascending(keys, 22) == Bitmap.Ascending(keys, 21) + [22]
    ensures Bitmap.Ascending(keys, 37) == Bitmap.Ascending(keys, 36) + [37]
    ensures Bitmap.Ascending(keys, 49) == Bitmap.Ascending(keys, 48) + [49]
  {
  }

  lemma KeysOf(r: Request, draw: nat)
    requires IsPurchase(r)
    ensures AreElements(RequestMessage(r, draw).fields.Keys)
  {
    hide Correlation.Stan, Sound, RJust, DecodeLatin1;
    OtherKeys(r);
  }

  lemma SameBut22(r: Request, draw: nat, de: Element)
    requires de != 22
    ensures var m, fitted := RequestMessage(r, draw), RequestMessage(Fitted(r), draw);
            && (de in m.fields <==> de in fitted.fields)
            && (de in m.fields ==> m.fields[de] == fitted.fields[de])
  {
    hide Correlation.Stan, RJust;
  }

  /** All elements but DE 22 fit. */
  lemma OthersFit(r: Request, draw: nat, de: Element)
    requires IsPurchase(r) && de in RequestMessage(r, draw).fields && de != 22
    ensures FieldOk(de, RequestMessage(r, draw).fields[de])
  {
    hide Correlation.Stan, Sound, RJust, FIELD_SPECS, FieldOk;
    CarriedExact(Fitted(r), draw);
    CarriedIsOk(RequestMessage(Fitted(r), draw));
    SameBut22(r, draw, de);
    assert FieldOk(de, RequestMessage(Fitted(r), draw).fields[de]);
  }

  lemma AroundFits(r: Request, draw: nat, des: seq<Element>)
    requires IsPurchase(r) && forall de | de in des :: de in RequestMessage(r, draw).fields && de != 22
    ensures EncodableAll(FIELD_SPECS, des, RequestMessage(r, draw).fields)
  {
    hide IsPurchase, FIELD_SPECS, Encodable, RequestMessage;
    forall de | de in des
      ensures de in FIELD_SPECS && Encodable(FIELD_SPECS[de], RequestMessage(r, draw).fields[de])
    {
      OthersFit(r, draw, de);
    }
  }

  lemma BodyEncodes(r: Request, draw: nat, before: seq<Element>, after: seq<Element>)
    returns (head: seq<byte>, tail: seq<byte>)
    requires IsPurchase(r) && ModeBytes(r.entryMode).Some?
    requires forall de | de in before + ([22, 37, 49] + after) :: de in RequestMessage(r, draw).fields
    requires 22 !in before && 22 !in after
    ensures (forall de | de in before :: de in RequestMessage(r, draw).fields)
    ensures (forall de | de in after :: de in RequestMessage(r, draw).fields)
    ensures EncodeFields(FIELD_SPECS, before, RequestMessage(r, draw).fields) == Some(head)
    ensures EncodeFields(FIELD_SPECS, after, RequestMessage(r, draw).fields) == Some(tail)
    ensures EncodeFields(FIELD_SPECS, before + ([22, 37, 49] + after), RequestMessage(r, draw).fields) ==
            Some(head + (Wire(r) + tail))
  {
    hide FIELD_SPECS, EncodeField, EncodeFields, ParseFields, RequestMessage, IsPurchase, EncodableAll, Wire;
    var fields := RequestMessage(r, draw).fields;
    assert forall de | de in before :: de in before + ([22, 37, 49] + after);
    assert forall de | de in [22, 37, 49] + after :: de in before + ([22, 37, 49] + after);
    assert forall de | de in after :: de in [22, 37, 49] + after;
    AroundFits(r, draw, before);
    AroundFits(r, draw, after);
    ParseFieldsBuilt(FIELD_SPECS, before, fields, [], 0, map[]);
    ParseFieldsBuilt(FIELD_SPECS, after, fields, [], 0, map[]);
    MiddleEncodes(r, draw);
    head, tail := EncodeFields(FIELD_SPECS, before, fields).value, EncodeFields(FIELD_SPECS, after, fields).value;
    EncodeFieldsSplit(FIELD_SPECS, [22, 37, 49], after, fields);
    EncodeFieldsSplit(FIELD_SPECS, before, [22, 37, 49] + after, fields);
  }

  /** The element is read as the fitted purchase's would be. */
  predicate ReadsWhole(r: Request, draw: nat, seen: Message, de: Element)
    requires Sound(Fitted(r))
  {
    Get(seen, de, "") == Seen(Fitted(r), draw, de)
  }

  lemma CanonicalIsWhole(r: Request, draw: nat, seen: Message, de: Element)
    requires IsPurchase(r) && de in RequestMessage(r, draw).fields && de != 22 && de in FIELD_SPECS
    requires de in seen.fields && seen.fields[de] == Canonical(FIELD_SPECS[de], RequestMessage(r, draw).fields[de])
    ensures ReadsWhole(r, draw, seen, de)
  {
    hide FIELD_SPECS, AuthorizeFields, Canonical, Sound, Correlation.Stan;
    CarriedExact(Fitted(r), draw);
    SameBut22(r, draw, de);
  }

  lemma AbsentIsWhole(r: Request, draw: nat, seen: Message, de: Element)
    requires IsPurchase(r) && de !in RequestMessage(r, draw).fields && de != 22 && de !in seen.fields
    ensures ReadsWhole(r, draw, seen, de)
  {
    hide FIELD_SPECS, AuthorizeFields, Canonical, Sound, Correlation.Stan;
    CarriedExact(Fitted(r), draw);
    SameBut22(r, draw, de);
  }

  /** What is parsed from where the first element stands. */
  lemma BodyParses(
      r: Request, draw: nat, before: seq<Element>, after: seq<Element>, raw: seq<byte>, pos: nat,
      head: seq<byte>, tail: seq<byte>)
    requires IsPurchase(r) && ModeBytes(r.entryMode).Some?
    requires (forall de | de in before :: IsBefore(de)) && (forall de | de in after :: IsAfter(de))
    requires (forall de | de in before :: de in RequestMessage(r, draw).fields)
    requires EncodeFields(FIELD_SPECS, before, RequestMessage(r, draw).fields) == Some(head)
    requires Holds(raw, pos, head + (Wire(r) + tail)) && |Wire(r)| >= 14
    ensures ParseFields(FIELD_SPECS, before + ([22, 37, 49] + after), raw, pos, map[]).Some?
    ensures var parsed := ParseFields(FIELD_SPECS, before + ([22, 37, 49] + after), raw, pos, map[]).value.0;
            && 37 in parsed && parsed[37] == RrnText(r)
            && 22 in parsed && parsed[22] == Bcd.Decode(Wire(r)[..2], 3)
            && (forall de | de in before ::
                  && de in parsed && de in FIELD_SPECS
                  && parsed[de] == Canonical(FIELD_SPECS[de], RequestMessage(r, draw).fields[de]))
  {
    hide FIELD_SPECS, EncodeField, EncodeFields, ParseField, ParseFields, RequestMessage, IsPurchase, EncodableAll,
         Wire, RrnText, Canonical;
    HoldsSplit(raw, pos, head, Wire(r) + tail);
    HoldsSplit(raw, pos + |head|, Wire(r), tail);
    var first := HeadParses(r, draw, before, raw, pos, head);
    MiddleParses(r, raw, pos + |head|, first);
    var (second, next) := ParseFields(FIELD_SPECS, [22, 37, 49], raw, pos + |head|, first).value;
    AfterFixed(after);
    FixedParse(FIELD_SPECS, after, raw, next, second);
    ParseFieldsSplit(FIELD_SPECS, [22, 37, 49], after, raw, pos + |head|, first);
    ParseFieldsSplit(FIELD_SPECS, before, [22, 37, 49] + after, raw, pos, map[]);
    ParseFieldsKeeps(FIELD_SPECS, after, raw, next, second, 37);
    ParseFieldsKeeps(FIELD_SPECS, after, raw, next, second, 22);
    forall de | de in before
      ensures de in second && second[de] == first[de]
      ensures de in ParseFields(FIELD_SPECS, after, raw, next, second).value.0
      ensures ParseFields(FIELD_SPECS, after, raw, next, second).value.0[de] == first[de]
    {
      ParseFieldsKeeps(FIELD_SPECS, [22, 37, 49], raw, pos + |head|, first, de);
      ParseFieldsKeeps(FIELD_SPECS, after, raw, next, second, de);
    }
  }

  lemma AfterFixed(after: seq<Element>)
    requires forall de | de in after :: IsAfter(de)
    ensures forall de | de in after :: de in FIELD_SPECS && FIELD_SPECS[de].lengthType == FIXED
    ensures forall de | de in after :: !IsBefore(de) && de != 22 && de != 37 && de != 49
  {
    hide FIELD_SPECS;
    PathElements();
  }

  lemma HeadParses(r: Request, draw: nat, before: seq<Element>, raw: seq<byte>, pos: nat, head: seq<byte>)
    returns (parsed: map<Element, string>)
    requires IsPurchase(r) && (forall de | de in before :: IsBefore(de))
    requires forall de | de in before :: de in RequestMessage(r, draw).fields
    requires EncodeFields(FIELD_SPECS, before, RequestMessage(r, draw).fields) == Some(head) && Holds(raw, pos, head)
    ensures ParseFields(FIELD_SPECS, before, raw, pos, map[]) == Some((parsed, pos + |head|))
    ensures forall de | de in before ::
              && de in parsed && de in FIELD_SPECS
              && parsed[de] == Canonical(FIELD_SPECS[de], RequestMessage(r, draw).fields[de])
  {
    hide FIELD_SPECS, EncodeField, EncodeFields, ParseField, ParseFields, IsPurchase, AuthorizeFields,
         Correlation.Stan, Canonical, RequestMessage, Encodable;
    var fields := RequestMessage(r, draw).fields;
    AroundFits(r, draw, before);
    ParseFieldsBuilt(FIELD_SPECS, before, fields, raw, pos, map[]);
    parsed := map[] + CanonicalOf(FIELD_SPECS, before, fields);
  }

  /** When DE 22 takes its two bytes, everything after it is read whole. */
  lemma AlignedBodyParses(
      r: Request, draw: nat, before: seq<Element>, after: seq<Element>, raw: seq<byte>, pos: nat,
      head: seq<byte>, tail: seq<byte>)
    requires IsPurchase(r) && IsAligned(r.entryMode)
    requires (forall de | de in before :: IsBefore(de)) && (forall de | de in after :: IsAfter(de))
    requires (forall de | de in before :: de in RequestMessage(r, draw).fields)
    requires (forall de | de in after :: de in RequestMessage(r, draw).fields)
    requires EncodeFields(FIELD_SPECS, before, RequestMessage(r, draw).fields) == Some(head)
    requires EncodeFields(FIELD_SPECS, after, RequestMessage(r, draw).fields) == Some(tail)
    requires Holds(raw, pos, head + (Wire(r) + tail))
    ensures ParseFields(FIELD_SPECS, before + ([22, 37, 49] + after), raw, pos, map[]).Some?
    ensures var parsed := ParseFields(FIELD_SPECS, before + ([22, 37, 49] + after), raw, pos, map[]).value.0;
            forall de | de in [37, 49] + after ::
              && de in parsed && de in FIELD_SPECS && de in RequestMessage(r, draw).fields
              && parsed[de] == Canonical(FIELD_SPECS[de], RequestMessage(r, draw).fields[de])
  {
    hide FIELD_SPECS, EncodeField, EncodeFields, ParseField, ParseFields, RequestMessage, IsPurchase, EncodableAll,
         Wire, Canonical, Encodable;
    HoldsSplit(raw, pos, head, Wire(r) + tail);
    var first := HeadParses(r, draw, before, raw, pos, head);
    RestParses(r, draw, after, raw, pos + |head|, first, tail);
    ParseFieldsSplit(FIELD_SPECS, before, [22, 37, 49] + after, raw, pos, map[]);
  }

  /** DE 22 and what comes after it, from where DE 22 stands. */
  lemma RestParses(
      r: Request, draw: nat, after: seq<Element>, raw: seq<byte>, pos: nat, parsed: map<Element, string>,
      tail: seq<byte>)
    requires IsPurchase(r) && IsAligned(r.entryMode)
    requires (forall de | de in after :: IsAfter(de) && de in RequestMessage(r, draw).fields)
    requires EncodeFields(FIELD_SPECS, after, RequestMessage(r, draw).fields) == Some(tail)
    requires Holds(raw, pos, Wire(r) + tail)
    ensures ParseFields(FIELD_SPECS, [22, 37, 49] + after, raw, pos, parsed).Some?
    ensures var result := ParseFields(FIELD_SPECS, [22, 37, 49] + after, raw, pos, parsed).value.0;
            forall de | de in [37, 49] + after ::
              && de in result && de in FIELD_SPECS && de in RequestMessage(r, draw).fields
              && result[de] == Canonical(FIELD_SPECS[de], RequestMessage(r, draw).fields[de])
  {
    hide FIELD_SPECS, EncodeField, EncodeFields, ParseField, ParseFields, RequestMessage, IsPurchase,
         Wire, Canonical, Encodable, Holds, IsAfter;
    var fields, mode := RequestMessage(r, draw).fields, ModeBytes(r.entryMode).value;
    var rest := RestEncodes(r, draw, after, tail);
    WireParts(r, tail, rest);
    HoldsSplit(raw, pos, mode, rest);
    OneParses(raw, pos, parsed);
    var second := parsed[22 := Bcd.Decode(Slice(raw, pos, pos + 2), 3)];
    ParseFieldsBuilt(FIELD_SPECS, [37, 49] + after, fields, raw, pos + 2, second);
    ParseFieldsSplit(FIELD_SPECS, [22], [37, 49] + after, raw, pos, parsed);
    assert [22, 37, 49] + after == [22] + ([37, 49] + after);
  }

  lemma OneParses(raw: seq<byte>, pos: nat, parsed: map<Element, string>)
    ensures ParseFields(FIELD_SPECS, [22], raw, pos, parsed) ==
            Some((parsed[22 := Bcd.Decode(Slice(raw, pos, pos + 2), 3)], pos + 2))
  {
    hide FIELD_SPECS, ParseField;
    PathElements();
    ModeParses(raw, pos);
    assert [22][1..] == [];
  }

  lemma WireParts(r: Request, tail: seq<byte>, rest: seq<byte>)
    requires IsPurchase(r) && ModeBytes(r.entryMode).Some? && rest == (RrnBytes(r) + CurrencyBytes(r)) + tail
    ensures Wire(r) + tail == ModeBytes(r.entryMode).value + rest
  {
  }

  lemma RestEncodes(r: Request, draw: nat, after: seq<Element>, tail: seq<byte>) returns (rest: seq<byte>)
    requires IsPurchase(r) && ModeBytes(r.entryMode).Some?
    requires (forall de | de in after :: IsAfter(de) && de in RequestMessage(r, draw).fields)
    requires EncodeFields(FIELD_SPECS, after, RequestMessage(r, draw).fields) == Some(tail)
    ensures rest == (RrnBytes(r) + CurrencyBytes(r)) + tail
    ensures forall de | de in [37, 49] + after :: de in RequestMessage(r, draw).fields
    ensures EncodableAll(FIELD_SPECS, [37, 49] + after, RequestMessage(r, draw).fields)
    ensures EncodeFields(FIELD_SPECS, [37, 49] + after, RequestMessage(r, draw).fields) == Some(rest)
  {
    hide FIELD_SPECS, EncodeField, Correlation.Stan, Sound, RJust, EncodableAll, AuthorizeFields;
    PathElements();
    WireLength(r);
    Transport.RequestElements(r);
    CurrencyEncodes(r);
    var fields := RequestMessage(r, draw).fields;
    RequestElement(r, draw, 37);
    RequestElement(r, draw, 49);
    assert [37, 49][1..] == [49] && [49][1..] == [];
    assert CurrencyBytes(r) + [] == CurrencyBytes(r);
    assert EncodeFields(FIELD_SPECS, [49], fields) == Some(CurrencyBytes(r));
    assert EncodeFields(FIELD_SPECS, [37, 49], fields) == Some(RrnBytes(r) + CurrencyBytes(r));
    EncodeFieldsSplit(FIELD_SPECS, [37, 49], after, fields);
    AroundFits(r, draw, [37, 49] + after);
    rest := (RrnBytes(r) + CurrencyBytes(r)) + tail;
  }

  lemma MessageBuilds(r: Request, draw: nat, body: seq<byte>)
    requires IsPurchase(r)
    requires var fields := RequestMessage(r, draw).fields;
             EncodeFields(FIELD_SPECS, Bitmap.Ascending(fields.Keys, 128), fields) == Some(body)
    ensures Build(FIELD_SPECS, "0200", RequestMessage(r, draw).fields).Some?
    ensures RequestMessage(r, draw).fields.Keys <= FIELD_SPECS.Keys
  {
    hide FIELD_SPECS, EncodeFields, IsPurchase, AuthorizeFields, Correlation.Stan, Bitmap.Ascending, RequestMessage;
    var fields := RequestMessage(r, draw).fields;
    PathElements();
    Bcd.EncodeHex("0200");
    forall de | de in fields
      ensures de in FIELD_SPECS
    {
      if de != 22 {
        OthersFit(r, draw, de);
      }
    }
    assert Bitmap.Encodable(fields.Keys);
    Bitmap.BuildIsBitmap(fields.Keys);
  }

  /** What is parsed of a purchase: all its elements, the first ones and the RRN as described. */
  ghost predicate IsParsed(r: Request, draw: nat, parsed: map<Element, string>)
    requires IsPurchase(r) && ModeBytes(r.entryMode).Some?
  {
    var fields := RequestMessage(r, draw).fields;
    WireLength(r);
    && parsed.Keys == fields.Keys
    && 37 in parsed && parsed[37] == RrnText(r)
    && 22 in parsed && parsed[22] == Bcd.Decode(Wire(r)[..2], 3)
    && (forall de | de in fields && (IsBefore(de) || (IsAligned(r.entryMode) && de != 22)) ::
          de in parsed && de in FIELD_SPECS && parsed[de] == Canonical(FIELD_SPECS[de], fields[de]))
  }

  /** How a purchase is laid out once it is built. */
  lemma PurchaseBuilt(r: Request, draw: nat)
    returns (before: seq<Element>, after: seq<Element>, head: seq<byte>, tail: seq<byte>, raw: seq<byte>, start: nat)
    requires IsPurchase(r) && ModeBytes(r.entryMode).Some?
    ensures var m := RequestMessage(r, draw);
            && m.mti == "0200" && AreElements(m.fields.Keys)
            && Build(FIELD_SPECS, m.mti, m.fields) == Some(raw) && Bcd.Decode(Slice(raw, 0, 2), 4) == m.mti
            && start >= 2 && Bitmap.Read(raw, 2) == Some((before + ([22, 37, 49] + after), start - 2))
            && Bitmap.Ascending(m.fields.Keys, 128) == before + ([22, 37, 49] + after)
            && (forall de | de in before :: IsBefore(de) && de in m.fields)
            && (forall de | de in after :: IsAfter(de) && de in m.fields)
            && EncodeFields(FIELD_SPECS, before, m.fields) == Some(head)
            && EncodeFields(FIELD_SPECS, after, m.fields) == Some(tail)
    ensures Holds(raw, start, head + (Wire(r) + tail))
  {
    hide FIELD_SPECS, EncodeField, EncodeFields, IsPurchase, Bitmap.Ascending, Bitmap.Read, Build, Bcd.Decode,
         Bcd.Encode, AreElements, Slice, Wire, IsBefore, IsAfter, RequestMessage;
    var m := RequestMessage(r, draw);
    Financial(r, draw);
    KeysOf(r, draw);
    before, after := ElementsAround(m.fields.Keys);
    BeforeAfter(before, after);
    head, tail := BodyEncodes(r, draw, before, after);
    MessageBuilds(r, draw, head + (Wire(r) + tail));
    raw := Build(FIELD_SPECS, m.mti, m.fields).value;
    assert Holds(raw, 0, raw);
    var bitmap, body := Layout(FIELD_SPECS, m.mti, m.fields, raw, 0);
    start := 2 + |bitmap|;
  }

  lemma LaidOutParses(
      r: Request, draw: nat, before: seq<Element>, after: seq<Element>, head: seq<byte>, tail: seq<byte>,
      raw: seq<byte>, start: nat)
    requires IsPurchase(r) && ModeBytes(r.entryMode).Some?
    requires var m := RequestMessage(r, draw);
             && AreElements(m.fields.Keys)
             && Bitmap.Ascending(m.fields.Keys, 128) == before + ([22, 37, 49] + after)
             && (forall de | de in before :: IsBefore(de) && de in m.fields)
             && (forall de | de in after :: IsAfter(de) && de in m.fields)
             && EncodeFields(FIELD_SPECS, before, m.fields) == Some(head)
             && EncodeFields(FIELD_SPECS, after, m.fields) == Some(tail)
    requires Holds(raw, start, head + (Wire(r) + tail))
    ensures ParseFields(FIELD_SPECS, before + ([22, 37, 49] + after), raw, start, map[]).Some?
    ensures IsParsed(
              r, draw, ParseFields(FIELD_SPECS, before + ([22, 37, 49] + after), raw, start, map[]).value.0)
  {
    hide FIELD_SPECS, EncodeFields, ParseFields, IsPurchase, Canonical, Bitmap.Ascending, Bitmap.Read, Build, Bcd.Decode,
         AreElements, Slice, Wire, Holds, RrnText, IsAligned, IsBefore, IsAfter, RequestMessage, IsParsed;
    var des := before + ([22, 37, 49] + after);
    WireLength(r);
    BodyParses(r, draw, before, after, raw, start, head, tail);
    ParseFieldsKeys(FIELD_SPECS, des, raw, start, map[]);
    if IsAligned(r.entryMode) {
      AlignedBodyParses(r, draw, before, after, raw, start, head, tail);
    }
    AllParsed(r, draw, before, after, ParseFields(FIELD_SPECS, des, raw, start, map[]).value.0);
  }

  lemma PurchaseParses(r: Request, draw: nat)
    requires IsPurchase(r) && ModeBytes(r.entryMode).Some?
    ensures Transmit(RequestMessage(r, draw)).Some?
    ensures Transmit(RequestMessage(r, draw)).value.mti == RequestMessage(r, draw).mti == "0200"
    ensures IsParsed(r, draw, Transmit(RequestMessage(r, draw)).value.fields)
  {
    hide FIELD_SPECS, EncodeFields, ParseFields, IsPurchase, Canonical, Bitmap.Ascending, Bitmap.Read, Build, Bcd.Decode,
         AreElements, Slice, Wire, Holds, IsBefore, IsAfter, Transmit, RequestMessage, IsParsed;
    var before, after, head, tail, raw, start := PurchaseBuilt(r, draw);
    LaidOutParses(r, draw, before, after, head, tail, raw, start);
    TransmitParses(RequestMessage(r, draw), raw, before + ([22, 37, 49] + after), start - 2);
  }

  lemma TransmitParses(m: Message, raw: seq<byte>, des: seq<Element>, bitmapLen: nat)
    requires Build(FIELD_SPECS, m.mti, m.fields) == Some(raw) && Bcd.Decode(Slice(raw, 0, 2), 4) == m.mti
    requires Bitmap.Read(raw, 2) == Some((des, bitmapLen))
    requires ParseFields(FIELD_SPECS, des, raw, 2 + bitmapLen, map[]).Some?
    ensures Transmit(m) == Some(Message(m.mti, ParseFields(FIELD_SPECS, des, raw, 2 + bitmapLen, map[]).value.0))
  {
    hide FIELD_SPECS, Build, ParseFields, Bitmap.Read, Bcd.Decode, Slice;
  }

  lemma Financial(r: Request, draw: nat)
    ensures RequestMessage(r, draw).mti == "0200"
  {
  }

  predicate AreCanonical(r: Request, draw: nat, des: seq<Element>, parsed: map<Element, string>) {
    var fields := RequestMessage(r, draw).fields;
    forall de | de in des && de in fields ::
      de in parsed && de in FIELD_SPECS && parsed[de] == Canonical(FIELD_SPECS[de], fields[de])
  }

  lemma AllParsed(
      r: Request, draw: nat, before: seq<Element>, after: seq<Element>, parsed: map<Element, string>)
    requires IsPurchase(r) && ModeBytes(r.entryMode).Some? && |Wire(r)| >= 14
    requires var keys := RequestMessage(r, draw).fields.Keys;
             AreElements(keys) && Bitmap.Ascending(keys, 128) == before + ([22, 37, 49] + after)
    requires (forall de | de in before :: IsBefore(de)) && (forall de | de in after :: IsAfter(de))
    requires parsed.Keys == set de | de in before + ([22, 37, 49] + after)
    requires 37 in parsed && parsed[37] == RrnText(r) && 22 in parsed && parsed[22] == Bcd.Decode(Wire(r)[..2], 3)
    requires AreCanonical(r, draw, before, parsed)
    requires IsAligned(r.entryMode) ==> AreCanonical(r, draw, [37, 49] + after, parsed)
    ensures IsParsed(r, draw, parsed)
  {
    hide FIELD_SPECS, Sound, Wire, RrnText, Bcd.Decode, RequestMessage, Canonical, AreElements, Bitmap.Ascending,
         IsAligned, IsBefore, IsAfter;
    KeysAre(RequestMessage(r, draw).fields.Keys, before, after);
  }

  lemma BeforeAfter(before: seq<Element>, after: seq<Element>)
    requires (forall de | de in before :: IsBefore(de)) && (forall de | de in after :: IsAfter(de))
    ensures 22 !in before && 22 !in after
  {
  }

  lemma KeysAre(keys: set<Element>, before: seq<Element>, after: seq<Element>)
    requires AreElements(keys) && Bitmap.Ascending(keys, 128) == before + ([22, 37, 49] + after)
    requires (forall de | de in before :: IsBefore(de)) && (forall de | de in after :: IsAfter(de))
    ensures keys == set de | de in before + ([22, 37, 49] + after)
    ensures forall de | de in keys && IsBefore(de) :: de in before
    ensures forall de | de in keys && de != 22 && !IsBefore(de) :: de in [37, 49] + after
  {
    hide Bitmap.Ascending;
    assert forall de | de in keys :: de in Bitmap.Ascending(keys, 128);
  }

  // ----- what the switch reads

  /** A text parsed for a text element would be carried unchanged. */
  lemma StrippedIsSeen(data: seq<byte>)
    requires |data| <= 12
    ensures IsSeen(Chars(12), RStrip(DecodeLatin1(data)))
  {
    var v := RStrip(DecodeLatin1(data));
    var padded := LJust(v, 12, ' ');
    assert padded[..|v|] == v;
    StripPadding(v, 12 - |v|);
  }

  lemma {:induction false} StripPadding(v: string, n: nat)
    requires v != "" ==> !IsSpace(v[|v| - 1])
    ensures RStrip(v + Repeat(' ', n)) == v
    decreases n
  {
    if n == 0 {
      assert v + Repeat(' ', n) == v;
    } else {
      StripPadding(v, n - 1);
      assert (v + Repeat(' ', n))[..|v| + n - 1] == v + Repeat(' ', n - 1);
    }
  }

  /**
    Whatever the entry mode, a purchase that is built is legible, and what comes before DE 22 is read whole. The RRN is
    read as the text that happens to stand in its place.
   */
  lemma PurchaseRead(r: Request, draw: nat)
    requires IsPurchase(r) && ModeBytes(r.entryMode).Some?
    ensures Legible(RequestMessage(r, draw)) && |Wire(r)| >= 14
    ensures var seen := Transmit(RequestMessage(r, draw)).value;
            && (forall de | IsBefore(de) :: ReadsWhole(r, draw, seen, de))
            && Get(seen, 22, "") == Bcd.Decode(Wire(r)[..2], 3)
            && Find(seen, 37) == Some(RrnText(r))
            && 48 !in seen.fields && 103 !in seen.fields
  {
    hide FIELD_SPECS, AuthorizeFields, Canonical, Correlation.Stan, Wire, RrnText, Sound, ReadsWhole, AreElements,
         Transmit, RequestMessage, Bcd.Decode;
    PathElements();
    WireLength(r);
    PurchaseParses(r, draw);
    KeysOf(r, draw);
    NoOtherKeys(RequestMessage(r, draw).fields.Keys);
    var seen := Transmit(RequestMessage(r, draw)).value;
    forall de | IsBefore(de)
      ensures ReadsWhole(r, draw, seen, de)
    {
      if de in RequestMessage(r, draw).fields {
        CanonicalIsWhole(r, draw, seen, de);
      } else {
        AbsentIsWhole(r, draw, seen, de);
      }
    }
    StanArrives(r, draw, seen);
    RrnTextSeen(r);
  }

  lemma NoOtherKeys(keys: set<Element>)
    requires AreElements(keys)
    ensures 11 in keys && 48 !in keys && 70 !in keys && 103 !in keys
  {
  }

  lemma RrnTextSeen(r: Request)
    requires IsPurchase(r) && ModeBytes(r.entryMode).Some?
    ensures IsSeen(Chars(12), RrnText(r))
  {
    hide IsPurchase, Wire;
    WireLength(r);
    StrippedIsSeen(Wire(r)[2..14]);
  }

  lemma StanArrives(r: Request, draw: nat, seen: Message)
    requires IsPurchase(r) && ModeBytes(r.entryMode).Some? && IsParsed(r, draw, seen.fields)
    ensures var m := RequestMessage(r, draw);
            && m.mti == "0200" && 11 in m.fields && 11 in seen.fields && seen.fields[11] == m.fields[11]
            && IsSeen(Digits(6), seen.fields[11])
  {
    hide FIELD_SPECS, AuthorizeFields, Canonical, Encodable, Correlation.Stan, Wire, RrnText, IsPurchase, Bcd.Decode;
    PathElements();
    Correlation.StanText(draw);
    ExactIsCanonical(Digits(6), Correlation.Stan(draw));
    WireLength(r);
  }

  /** When DE 22 takes its two bytes everything else is read whole, and the RRN is the caller's own. */
  lemma AlignedRead(r: Request, draw: nat)
    requires IsPurchase(r) && IsAligned(r.entryMode)
    ensures Legible(RequestMessage(r, draw))
    ensures var seen := Transmit(RequestMessage(r, draw)).value;
            && (forall de | de != 22 :: ReadsWhole(r, draw, seen, de))
            && Find(seen, 37) == Some(r.rrn)
            && Get(seen, 22, "") == Bcd.Decode(ModeBytes(r.entryMode).value, 3)
  {
    hide FIELD_SPECS, AuthorizeFields, Canonical, Correlation.Stan, RrnText, Sound, ReadsWhole, AreElements,
         Transmit, RequestMessage, Bcd.Decode, Legible;
    PurchaseRead(r, draw);
    PurchaseParses(r, draw);
    WireLength(r);
    var seen := Transmit(RequestMessage(r, draw)).value;
    forall de: Element | de != 22
      ensures ReadsWhole(r, draw, seen, de)
    {
      if de in RequestMessage(r, draw).fields {
        CanonicalIsWhole(r, draw, seen, de);
      } else {
        AbsentIsWhole(r, draw, seen, de);
      }
    }
    assert Wire(r)[..2] == ModeBytes(r.entryMode).value;
    AlignedRrn(r);
  }

  lemma AlignedRrn(r: Request)
    requires IsPurchase(r) && IsAligned(r.entryMode)
    ensures RrnText(r) == r.rrn
  {
    hide Sound;
    WireLength(r);
    assert Wire(r)[2..14] == RrnBytes(r);
    Latin1RoundTrip(r.rrn, []);
    assert IsDigit(r.rrn[11]);
  }

  /** A purchase whose entry mode is no run of hex digits is not built at all. */
  lemma NotBuilt(r: Request, draw: nat)
    requires ModeBytes(r.entryMode).None?
    ensures Build(FIELD_SPECS, "0200", RequestMessage(r, draw).fields).None?
    ensures Transmit(RequestMessage(r, draw)).None?
  {
    hide FIELD_SPECS, EncodeField, EncodeFields, Correlation.Stan, Bitmap.Ascending, Bitmap.Build;
    PathElements();
    Transport.RequestElements(r);
    var fields := RequestMessage(r, draw).fields;
    OneUnbuildable(FIELD_SPECS, Bitmap.Ascending(fields.Keys, 128), fields, 22);
  }

  /** The elements before DE 22 are read whole. */
  ghost predicate BeforeModeRead(r: Request, draw: nat, seen: Message) {
    Sound(Fitted(r)) && forall de | IsBefore(de) :: ReadsWhole(r, draw, seen, de)
  }

  /** Of a request that the switch can read it reads an RRN, and what comes before DE 22 whole. */
  lemma AnyRead(r: Request, draw: nat)
    requires FitsButMode(r) && IsRrn(r.rrn) && Transmit(RequestMessage(r, draw)).Some?
    ensures Legible(RequestMessage(r, draw)) && RrnRead(RequestMessage(r, draw)).Some?
    ensures BeforeModeRead(r, draw, Transmit(RequestMessage(r, draw)).value)
  {
    hide RequestMessage, Legible, ReadsWhole, Transmit, RrnText, IsBefore, ModeBytes, Wire, Sound, RrnRead;
    if r.accountId2.None? && Sound(Fitted(r)) {
      if ModeBytes(r.entryMode).None? {
        NotBuilt(r, draw);
      }
      PurchaseRead(r, draw);
      RrnIsFound(RequestMessage(r, draw));
    } else {
      SoundRead(r, draw);
    }
  }

  lemma RrnIsFound(m: Message)
    requires Transmit(m).Some?
    ensures RrnRead(m) == Find(Transmit(m).value, 37)
  {
    hide Transmit;
  }

  lemma SoundRead(r: Request, draw: nat)
    requires Sound(r) && IsRrn(r.rrn)
    ensures Legible(RequestMessage(r, draw)) && RrnRead(RequestMessage(r, draw)) == Some(r.rrn)
    ensures BeforeModeRead(r, draw, Transmit(RequestMessage(r, draw)).value)
  {
    hide FIELD_SPECS, RequestMessage, Legible, Transmit, RrnRead, Canonicalised, Carried;
    SoundIsLegible(r, draw);
    TransmitCarried(RequestMessage(r, draw));
    assert IsDigit(r.rrn[11]);
    SoundRrnRead(r, draw);
    FittedIsSound(r);
    forall de | IsBefore(de)
      ensures ReadsWhole(r, draw, Transmit(RequestMessage(r, draw)).value, de)
    {
      SameSeen(r, draw, de);
    }
  }

  lemma FittedIsSound(r: Request)
    requires Sound(r)
    ensures Sound(Fitted(r))
  {
  }

  lemma SameSeen(r: Request, draw: nat, de: Element)
    requires Sound(r) && Sound(Fitted(r)) && de != 22
    ensures Carried(RequestMessage(r, draw))
    ensures Get(Canonicalised(RequestMessage(r, draw)), de, "") == Seen(Fitted(r), draw, de)
  {
    hide FIELD_SPECS, Canonical, Sound, RequestMessage, Encodable;
    CarriedExact(r, draw);
    CarriedExact(Fitted(r), draw);
    SameBut22(r, draw, de);
  }

  /** When DE 22 takes its two bytes, all other elements are read whole, the RRN among them. */
  lemma AnyAlignedRead(r: Request, draw: nat)
    requires FitsButMode(r) && IsRrn(r.rrn) && IsAligned(r.entryMode)
    ensures Legible(RequestMessage(r, draw)) && RrnRead(RequestMessage(r, draw)) == Some(r.rrn) && Sound(Fitted(r))
    ensures var seen := Transmit(RequestMessage(r, draw)).value;
            && (forall de | de != 22 :: ReadsWhole(r, draw, seen, de))
            && Get(seen, 22, "") == Bcd.Decode(ModeBytes(r.entryMode).value, 3)
  {
    hide RequestMessage, Legible, ReadsWhole, Transmit, ModeBytes, Sound, Bcd.Decode;
    if r.accountId2.None? && Sound(Fitted(r)) {
      AlignedRead(r, draw);
      LegibleType(RequestMessage(r, draw));
      RrnIsFound(RequestMessage(r, draw));
    } else {
      SoundAlignedRead(r, draw);
    }
  }

  lemma SoundAlignedRead(r: Request, draw: nat)
    requires Sound(r) && IsRrn(r.rrn)
    ensures Legible(RequestMessage(r, draw)) && RrnRead(RequestMessage(r, draw)) == Some(r.rrn) && Sound(Fitted(r))
    ensures ModeBytes(r.entryMode).Some?
    ensures var seen := Transmit(RequestMessage(r, draw)).value;
            && (forall de | de != 22 :: ReadsWhole(r, draw, seen, de))
            && Get(seen, 22, "") == RJust(r.entryMode, 3, '0') == Bcd.Decode(ModeBytes(r.entryMode).value, 3)
  {
    hide FIELD_SPECS, RequestMessage, Legible, Transmit, RrnRead, Canonicalised, Carried, Sound, ModeBytes, RJust,
         Bcd.Decode;
    SoundRead(r, draw);
    SoundIsLegible(r, draw);
    TransmitCarried(RequestMessage(r, draw));
    FittedIsSound(r);
    SwitchReads(r, draw);
    ModeDecodes(r);
    forall de: Element | de != 22
      ensures ReadsWhole(r, draw, Transmit(RequestMessage(r, draw)).value, de)
    {
      SameSeen(r, draw, de);
    }
  }

  lemma ModeDecodes(r: Request)
    requires FitsDigits(r.entryMode, 3) || Sound(r)
    ensures ModeBytes(r.entryMode).Some? && IsAligned(r.entryMode)
    ensures Bcd.Decode(ModeBytes(r.entryMode).value, 3) == RJust(r.entryMode, 3, '0')
  {
    var code := RJust(r.entryMode, 3, '0');
    assert AllUpperHex(code) && |code| == 3;
    Bcd.EncodeHex(code);
  }

  /** Only a request that is built can be read. */
  lemma TransmitBuilds(r: Request, draw: nat)
    requires Transmit(RequestMessage(r, draw)).Some?
    ensures Build(FIELD_SPECS, "0200", RequestMessage(r, draw).fields).Some?
  {
    hide FIELD_SPECS, Build, Parse, AuthorizeFields;
  }
}
