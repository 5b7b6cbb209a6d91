/** What travels between the client and the switch, and how the switch answers (switch/host_simulator.py:116-151). */
module HostSwitch {
  import opened Wrappers
  import opened Text
  import Bitmap
  type Element = Bitmap.Element
  import opened FieldCatalogue
  import opened Codec

  /** Build a message, send its bytes, parse them, with the standard catalogue on both sides. */
  function Transmit(m: Message): Option<Message> {
    Through(FIELD_SPECS, m)
  }

  /** The messages the standard catalogue can carry. */
  predicate Carried(m: Message) {
    Carries(FIELD_SPECS, m)
  }

  function Canonicalised(m: Message): Message
    requires Carried(m)
  {
    CanonicalMessage(FIELD_SPECS, m)
  }

  lemma TransmitCarried(m: Message)
    requires Carried(m)
    ensures Transmit(m) == Some(Canonicalised(m))
  {
    hide FIELD_SPECS, Through, WellFormed, CanonicalMessage;
    CarriedThrough(FIELD_SPECS, m);
  }

  function Get(m: Message, de: Element, default: string): string {
    if de in m.fields then m.fields[de] else default
  }

  /**
    _build_response: the answer to a parsed message, or None for silence. The simulator always answers a
    financial request with code "00"; any response code is allowed here.
   */
  function Response(parsed: Message, code: string): Option<Message> {
    var stan := Get(parsed, 11, "000000");
    if parsed.mti == "0800" then Some(Message("0810", map[11 := stan, 70 := Get(parsed, 70, "001")]))
    else if parsed.mti == "0200" then
      if Get(parsed, 48, "") == "SIMULATE_TIMEOUT" then None
      else
        var fields := map[11 := stan, 39 := code, 38 := "A18008"];
        Some(Message("0210", if 37 in parsed.fields then fields[37 := parsed.fields[37]] else fields))
    else if parsed.mti == "0400" then Some(Message("0410", map[11 := stan, 39 := "00"]))
    else None
  }

  /** An answer carries the STAN of what it answers. */
  lemma ResponseStan(parsed: Message, code: string)
    requires Response(parsed, code).Some?
    ensures Get(Response(parsed, code).value, 11, "") == Get(parsed, 11, "000000")
    ensures 11 in parsed.fields ==> Get(parsed, 11, "000000") == Get(parsed, 11, "")
  {
  }

  /** Which messages the switch answers, and with what. */
  lemma ResponseExact(parsed: Message, code: string)
    ensures Response(parsed, code).None? <==>
            && parsed.mti != "0800" && parsed.mti != "0400"
            && (parsed.mti == "0200" ==> 48 in parsed.fields && parsed.fields[48] == "SIMULATE_TIMEOUT")
    ensures Response(parsed, code).Some? ==>
              var answer := Response(parsed, code).value;
              && answer.mti == (if parsed.mti == "0800" then "0810" else if parsed.mti == "0200" then "0210" else "0410")
              && 11 in answer.fields
              && answer.fields[11] == (if 11 in parsed.fields then parsed.fields[11] else "000000")
              && (39 in answer.fields <==> parsed.mti != "0800")
              && (39 in answer.fields ==> answer.fields[39] == if parsed.mti == "0200" then code else "00")
              && (37 in answer.fields <==> parsed.mti == "0200" && 37 in parsed.fields)
              && (37 in answer.fields ==> answer.fields[37] == parsed.fields[37])
              && (38 in answer.fields <==> parsed.mti == "0200")
              && (38 in answer.fields ==> answer.fields[38] == "A18008")
              && (70 in answer.fields <==> parsed.mti == "0800")
              && (70 in answer.fields ==> answer.fields[70] == if 70 in parsed.fields then parsed.fields[70] else "001")
              && answer.fields.Keys <= {11, 37, 38, 39, 70}
  {
  }

  predicate IsEntry(de: Element, spec: FieldSpec) {
    de in FIELD_SPECS && FIELD_SPECS[de] == spec
  }

  lemma Entry(de: Element, spec: FieldSpec)
    requires 2 <= de <= 128 && SpecOf(de) == Some(spec)
    ensures IsEntry(de, spec)
  {
    hide SpecOf;
  }

  lemma RequestElements()
    ensures IsEntry(2, LlDigits(19)) && IsEntry(3, Digits(6)) && IsEntry(4, Digits(12)) && IsEntry(11, Digits(6))
    ensures IsEntry(22, Digits(3)) && IsEntry(37, Chars(12))
  {
    hide FIELD_SPECS, IsEntry;
    Entry(2, LlDigits(19)); Entry(3, Digits(6)); Entry(4, Digits(12)); Entry(11, Digits(6));
    Entry(22, Digits(3)); Entry(37, Chars(12));
  }

  lemma ReplyElements()
    ensures IsEntry(38, Chars(6)) && IsEntry(39, Chars(2))
  {
    hide FIELD_SPECS, IsEntry;
    Entry(38, Chars(6)); Entry(39, Chars(2));
  }

  lemma CurrencyElement()
    ensures IsEntry(49, Digits(3))
  {
    hide FIELD_SPECS, IsEntry;
    Entry(49, Digits(3));
  }

  lemma SecurityElements()
    ensures IsEntry(52, Octets(8)) && IsEntry(53, Digits(16))
  {
    hide FIELD_SPECS, IsEntry;
    Entry(52, Octets(8)); Entry(53, Digits(16));
  }

  lemma NetworkElement()
    ensures IsEntry(70, Digits(3))
  {
    hide FIELD_SPECS, IsEntry;
    Entry(70, Digits(3));
  }

  lemma OriginalElement()
    ensures IsEntry(90, Digits(42))
  {
    hide FIELD_SPECS, IsEntry;
    Entry(90, Digits(42));
  }

  lemma AccountElement()
    ensures IsEntry(103, LlChars(28))
  {
    hide FIELD_SPECS, IsEntry;
    Entry(103, LlChars(28));
  }

  /** The catalogue's entries for the elements of financial, reversal and network messages. */
  lemma PathElements()
    ensures IsEntry(2, LlDigits(19)) && IsEntry(3, Digits(6)) && IsEntry(4, Digits(12)) && IsEntry(11, Digits(6))
    ensures IsEntry(22, Digits(3)) && IsEntry(37, Chars(12)) && IsEntry(38, Chars(6)) && IsEntry(39, Chars(2))
    ensures IsEntry(49, Digits(3)) && IsEntry(52, Octets(8)) && IsEntry(53, Digits(16)) && IsEntry(70, Digits(3))
    ensures IsEntry(90, Digits(42)) && IsEntry(103, LlChars(28))
  {
    hide FIELD_SPECS, IsEntry;
    RequestElements();
    ReplyElements();
    CurrencyElement();
    SecurityElements();
    NetworkElement();
    OriginalElement();
    AccountElement();
  }

  /** Digits that fill a numeric element, and text without trailing white space that fills a text element. */
  predicate IsExact(spec: FieldSpec, v: string) {
    && spec.lengthType == FIXED && |v| == spec.length
    && if spec.numeric then AllUpperHex(v) else Latin1(v) && (v == "" || spec.binary || !IsSpace(v[|v| - 1]))
  }

  lemma ExactIsCanonical(spec: FieldSpec, v: string)
    requires IsExact(spec, v)
    ensures Encodable(spec, v) && Canonical(spec, v) == v
  {
  }

  /** Response codes are two characters, neither of them white space. */
  predicate IsResponseCode(code: string) {
    |code| == 2 && Latin1(code) && !IsSpace(code[1])
  }

  /** What the switch saw of a fixed element: full width if numeric, stripped if text. */
  predicate IsSeen(spec: FieldSpec, v: string) {
    Encodable(spec, v) && Canonical(spec, v) == v
  }

  lemma SeenElement(parsed: Message, de: Element)
    requires Carried(parsed) && Canonicalised(parsed) == parsed && de in parsed.fields
    ensures de in FIELD_SPECS && IsSeen(FIELD_SPECS[de], parsed.fields[de])
  {
    hide FIELD_SPECS, Encodable, Canonical;
    assert Canonicalised(parsed).fields[de] == parsed.fields[de];
  }

  predicate AllSeen(m: Message) {
    forall de | de in m.fields :: de in FIELD_SPECS && IsSeen(FIELD_SPECS[de], m.fields[de])
  }

  lemma SeenIsCanonical(m: Message)
    requires |m.mti| == 4 && AllUpperHex(m.mti) && AllSeen(m)
    ensures Carried(m) && Canonicalised(m) == m
  {
    hide FIELD_SPECS, Encodable, Canonical;
  }

  /** STAN, RRN and network code, which an answer repeats, are as a parser leaves them. */
  predicate Answerable(parsed: Message) {
    forall de | de in parsed.fields && (de == 11 || de == 37 || de == 70) ::
      de in FIELD_SPECS && IsSeen(FIELD_SPECS[de], parsed.fields[de])
  }

  lemma ResponseSeen(parsed: Message, code: string)
    requires Answerable(parsed)
    requires IsResponseCode(code) && Response(parsed, code).Some?
    ensures AllSeen(Response(parsed, code).value)
  {
    hide FIELD_SPECS, Encodable, Canonical, Carried, Canonicalised;
    PathElements();
    var m := Response(parsed, code).value;
    ExactIsCanonical(Digits(3), "001");
    ExactIsCanonical(Digits(6), "000000");
    ExactIsCanonical(Chars(6), "A18008");
    ExactIsCanonical(Chars(2), code);
    ExactIsCanonical(Chars(2), "00");
    forall de | de in m.fields
      ensures de in FIELD_SPECS && IsSeen(FIELD_SPECS[de], m.fields[de])
    {
    }
  }

  /** The switch's answer is itself carried and arrives as it was sent. */
  lemma ResponseCarried(parsed: Message, code: string)
    requires Answerable(parsed)
    requires IsResponseCode(code) && Response(parsed, code).Some?
    ensures Carried(Response(parsed, code).value)
    ensures Canonicalised(Response(parsed, code).value) == Response(parsed, code).value
  {
    hide AllSeen, FIELD_SPECS;
    ResponseSeen(parsed, code);
    SeenIsCanonical(Response(parsed, code).value);
  }

  // ----- messages that need not be carried whole

  /** The switch reads the message's type and STAN as they were sent, and can answer it. */
  predicate Legible(m: Message) {
    && |m.mti| == 4 && 11 in m.fields && Transmit(m).Some?
    && var seen := Transmit(m).value;
       seen.mti == m.mti && 11 in seen.fields && seen.fields[11] == m.fields[11] && Answerable(seen)
  }

  /** A carried message with a full STAN is legible. */
  lemma CarriedIsLegible(m: Message)
    requires Carried(m) && 11 in m.fields && IsExact(Digits(6), m.fields[11])
    ensures Legible(m) && Transmit(m) == Some(Canonicalised(m))
  {
    hide FIELD_SPECS, Encodable, Canonical, Transmit;
    PathElements();
    TransmitCarried(m);
    ExactIsCanonical(Digits(6), m.fields[11]);
    CanonicalisedTwice(m);
    var seen := Canonicalised(m);
    forall de | de in seen.fields
      ensures de in FIELD_SPECS && IsSeen(FIELD_SPECS[de], seen.fields[de])
    {
      SeenElement(seen, de);
    }
  }

  lemma LegibleMti(m: Message)
    requires Legible(m)
    ensures |m.mti| == 4 && AllUpperHex(m.mti)
  {
    hide FIELD_SPECS, Build, ParseFields, Bitmap.Read;
  }

  /** The answer to a legible message arrives as it was sent, with the STAN that was sent. */
  lemma AnswerArrives(m: Message, code: string)
    requires Legible(m) && IsResponseCode(code) && Response(Transmit(m).value, code).Some?
    ensures var answer := Response(Transmit(m).value, code).value;
            Transmit(answer) == Some(answer) && Get(answer, 11, "") == m.fields[11]
  {
    hide FIELD_SPECS, Transmit, Answerable;
    ResponseCarried(Transmit(m).value, code);
    TransmitCarried(Response(Transmit(m).value, code).value);
    ResponseStan(Transmit(m).value, code);
  }

  lemma CanonicalisedTwice(m: Message)
    requires Carried(m)
    ensures Carried(Canonicalised(m)) && Canonicalised(Canonicalised(m)) == Canonicalised(m)
  {
    hide FIELD_SPECS;
    CanonicalIsStable(FIELD_SPECS, m.mti, m.fields);
  }
}
