/** The direct transport (switch/transport.py:43-142): one authorization as an ISO 8583 exchange. */
module Transport {
  import opened Wrappers
  import opened Text
  import opened Bytes
  import opened FieldCatalogue
  import opened Codec
  import opened HostSwitch
  import Correlation
  import Handover
  import MockHsm
  import PinBlock

  datatype Outcome = Approved | Declined | Unknown

  datatype AuthorizationResult = AuthorizationResult(
    outcome: Outcome, responseCode: string, authorizationId: Option<string>, stan: Option<string>, rrn: string,
    reversalSent: bool)

  /** The keyword arguments of authorize. */
  datatype Request = Request(
    pan: string, processingCode: string, amountMinor: string, entryMode: string, rrn: string, currencyCode: string,
    pinBlock: Option<seq<byte>>, ksn: Option<string>, accountId2: Option<string>)

  // ----- the message

  function With(fields: map<Element, string>, de: Element, v: Option<string>): map<Element, string> {
    if v.Some? then fields[de := v.value] else fields
  }

  function Carrier(block: Option<seq<byte>>): Option<string> {
    if block.Some? then Some(DecodeLatin1(block.value)) else None
  }

  function Justified(ksn: Option<string>): Option<string> {
    if ksn.Some? then Some(RJust(ksn.value, 16, '0')) else None
  }

  function PlainFields(r: Request): map<Element, string> {
    map[2 := r.pan, 3 := r.processingCode, 4 := r.amountMinor, 22 := r.entryMode, 37 := r.rrn, 49 := r.currencyCode]
  }

  function AuthorizeFields(r: Request): map<Element, string> {
    With(With(With(PlainFields(r), 52, Carrier(r.pinBlock)), 53, Justified(r.ksn)), 103, r.accountId2)
  }

  /** authorize up to send_and_wait. */
  method FillFields(r: Request) returns (fields: map<Element, string>)
    ensures fields == AuthorizeFields(r)
  {
    fields := map[
      2 := r.pan,
      3 := r.processingCode,
      4 := r.amountMinor,
      22 := r.entryMode,
      37 := r.rrn,
      49 := r.currencyCode
    ];
    assert fields == PlainFields(r);
    if r.pinBlock.Some? {
      fields := fields[52 := DecodeLatin1(r.pinBlock.value)];
    }
    if r.ksn.Some? {
      fields := fields[53 := RJust(r.ksn.value, 16, '0')];
    }
    if r.accountId2.Some? {
      fields := fields[103 := r.accountId2.value];
    }
  }

  function RequestMessage(r: Request, draw: nat): Message {
    Message("0200", AuthorizeFields(r)[11 := Correlation.Stan(draw)])
  }

  predicate FitsDigits(v: string, width: nat) {
    |v| <= width && AllUpperHex(v)
  }

  /** What the format can carry of a request. */
  predicate Sound(r: Request) {
    && FitsDigits(r.pan, 99) && FitsDigits(r.processingCode, 6) && FitsDigits(r.amountMinor, 12)
    && FitsDigits(r.entryMode, 3) && FitsDigits(r.currencyCode, 3) && Latin1(r.rrn)
    && (r.ksn.Some? ==> FitsDigits(r.ksn.value, 16))
    && (r.accountId2.Some? ==> |r.accountId2.value| <= 99 && Latin1(r.accountId2.value))
  }

  lemma JustifiedHex(v: string, width: nat)
    ensures FitsDigits(RJust(v, width, '0'), width) <==> FitsDigits(v, width)
  {
    if |v| < width {
      var zeros := width - |v|;
      assert forall i | 0 <= i < |v| :: RJust(v, width, '0')[zeros + i] == v[i];
    }
  }

  // ----- which requests the format carries

  predicate FieldOk(de: Element, v: string) {
    de in FIELD_SPECS && Encodable(FIELD_SPECS[de], v)
  }

  predicate AllOk(fields: map<Element, string>) {
    forall de | de in fields :: FieldOk(de, fields[de])
  }

  lemma WithOk(fields: map<Element, string>, de: Element, v: Option<string>)
    requires de !in fields
    ensures AllOk(With(fields, de, v)) <==> AllOk(fields) && (v.Some? ==> FieldOk(de, v.value))
  {
    hide FieldOk;
    var more := With(fields, de, v);
    if v.Some? && AllOk(more) {
      assert more[de] == v.value;
      forall e | e in fields
        ensures FieldOk(e, fields[e])
      {
        assert more[e] == fields[e];
      }
    }
  }

  lemma PlainOk(r: Request)
    ensures AllOk(PlainFields(r)) <==>
            && FieldOk(2, r.pan) && FieldOk(3, r.processingCode) && FieldOk(4, r.amountMinor) && FieldOk(22, r.entryMode)
            && FieldOk(37, r.rrn) && FieldOk(49, r.currencyCode)
  {
    hide FieldOk;
    var f := PlainFields(r);
    assert f[2] == r.pan && f[3] == r.processingCode && f[4] == r.amountMinor;
    assert f[22] == r.entryMode && f[37] == r.rrn && f[49] == r.currencyCode;
  }

  lemma ElementsOk(r: Request)
    ensures FieldOk(2, r.pan) <==> FitsDigits(r.pan, 99)
    ensures FieldOk(3, r.processingCode) <==> FitsDigits(r.processingCode, 6)
    ensures FieldOk(4, r.amountMinor) <==> FitsDigits(r.amountMinor, 12)
    ensures FieldOk(22, r.entryMode) <==> FitsDigits(r.entryMode, 3)
    ensures FieldOk(37, r.rrn) <==> Latin1(r.rrn)
    ensures FieldOk(49, r.currencyCode) <==> FitsDigits(r.currencyCode, 3)
  {
    hide FIELD_SPECS, AllUpperHex, Latin1;
    PathElements();
  }

  lemma OptionsOk(r: Request)
    ensures r.pinBlock.Some? ==> FieldOk(52, Carrier(r.pinBlock).value)
    ensures r.ksn.Some? ==> (FieldOk(53, Justified(r.ksn).value) <==> FitsDigits(r.ksn.value, 16))
    ensures r.accountId2.Some? ==>
              (FieldOk(103, r.accountId2.value) <==> |r.accountId2.value| <= 99 && Latin1(r.accountId2.value))
  {
    hide FIELD_SPECS, AllUpperHex, Latin1, RJust;
    PathElements();
    if r.ksn.Some? {
      JustifiedHex(r.ksn.value, 16);
    }
  }

  /** A request reaches the switch intact, apart from padding, exactly when each of its values fits its element. */
  lemma CarriedExact(r: Request, draw: nat)
    ensures Carried(RequestMessage(r, draw)) <==> Sound(r)
  {
    hide FIELD_SPECS, Correlation.Stan, FieldOk, FitsDigits, Latin1, PlainFields, Encodable, WellFormed, RJust;
    PlainOk(r);
    ElementsOk(r);
    OptionsOk(r);
    StanOk(draw);
    OtherKeys(r);
    WithOk(PlainFields(r), 52, Carrier(r.pinBlock));
    WithOk(With(PlainFields(r), 52, Carrier(r.pinBlock)), 53, Justified(r.ksn));
    WithOk(With(With(PlainFields(r), 52, Carrier(r.pinBlock)), 53, Justified(r.ksn)), 103, r.accountId2);
    WithOk(AuthorizeFields(r), 11, Some(Correlation.Stan(draw)));
    CarriedIsOk(RequestMessage(r, draw));
  }

  lemma OtherKeys(r: Request)
    ensures PlainFields(r).Keys == {2, 3, 4, 22, 37, 49}
  {
  }

  lemma StanOk(draw: nat)
    ensures FieldOk(11, Correlation.Stan(draw))
  {
    hide FIELD_SPECS, Correlation.Stan;
    PathElements();
    Correlation.StanText(draw);
  }

  lemma CarriedIsOk(m: Message)
    requires m.mti == "0200"
    ensures Carried(m) <==> AllOk(m.fields)
  {
    hide FIELD_SPECS, Encodable;
    if AllOk(m.fields) {
      assert forall de | de in m.fields :: FieldOk(de, m.fields[de]);
    }
  }

  // ----- what the switch reads

  lemma RequestElement(r: Request, draw: nat, de: Element)
    requires de != 11
    ensures de in AuthorizeFields(r) ==>
              de in RequestMessage(r, draw).fields && RequestMessage(r, draw).fields[de] == AuthorizeFields(r)[de]
  {
  }

  lemma RequestElements(r: Request)
    ensures var f := AuthorizeFields(r);
            && {2, 3, 4, 22, 37, 49} <= f.Keys && f[2] == r.pan && f[3] == r.processingCode && f[4] == r.amountMinor
            && f[22] == r.entryMode && f[37] == r.rrn && f[49] == r.currencyCode
            && (r.pinBlock.Some? ==> 52 in f && f[52] == DecodeLatin1(r.pinBlock.value))
            && (r.ksn.Some? ==> 53 in f && f[53] == RJust(r.ksn.value, 16, '0'))
            && (103 in f <==> r.accountId2.Some?) && (r.accountId2.Some? ==> f[103] == r.accountId2.value)
  {
    hide RJust;
  }

  /** The switch's view of one element of a sound request. */
  function Seen(r: Request, draw: nat, de: Element): string
    requires Sound(r)
  {
    CarriedExact(r, draw);
    Get(Canonicalised(RequestMessage(r, draw)), de, "")
  }

  lemma SeenIs(r: Request, draw: nat, de: Element, spec: FieldSpec)
    requires Sound(r) && de != 11 && de in AuthorizeFields(r) && IsEntry(de, spec)
    ensures Seen(r, draw, de) == Canonical(spec, AuthorizeFields(r)[de])
  {
    hide FIELD_SPECS, AuthorizeFields, Canonical, Sound, Correlation.Stan;
    CarriedExact(r, draw);
    RequestElement(r, draw, de);
  }

  lemma NotSent(r: Request, draw: nat, de: Element)
    requires Sound(r) && de != 11 && de !in AuthorizeFields(r)
    ensures Seen(r, draw, de) == ""
  {
    hide FIELD_SPECS, AuthorizeFields, Canonical, Sound, Correlation.Stan;
    CarriedExact(r, draw);
  }

  /** Card number and account arrive as given, codes at full width, and so does an RRN of twelve characters. */
  lemma SwitchReads(r: Request, draw: nat)
    requires Sound(r)
    ensures Seen(r, draw, 2) == r.pan && Seen(r, draw, 3) == RJust(r.processingCode, 6, '0')
    ensures Seen(r, draw, 22) == RJust(r.entryMode, 3, '0') && Seen(r, draw, 49) == RJust(r.currencyCode, 3, '0')
    ensures Seen(r, draw, 103) == if r.accountId2.Some? then r.accountId2.value else ""
    ensures |r.rrn| == 12 && !IsSpace(r.rrn[11]) ==> Seen(r, draw, 37) == r.rrn
  {
    hide FIELD_SPECS, AuthorizeFields, Seen, IsEntry, Sound, RJust;
    PathElements();
    RequestElements(r);
    SeenIs(r, draw, 2, LlDigits(19));
    SeenIs(r, draw, 3, Digits(6));
    SeenIs(r, draw, 22, Digits(3));
    SeenIs(r, draw, 49, Digits(3));
    if r.accountId2.Some? {
      SeenIs(r, draw, 103, LlChars(28));
    } else {
      NotSent(r, draw, 103);
    }
    RrnArrives(r, draw);
  }

  lemma RrnArrives(r: Request, draw: nat)
    requires Sound(r) && IsEntry(37, Chars(12)) && 37 in AuthorizeFields(r) && AuthorizeFields(r)[37] == r.rrn
    ensures |r.rrn| == 12 && !IsSpace(r.rrn[11]) ==> Seen(r, draw, 37) == r.rrn
  {
    hide FIELD_SPECS, AuthorizeFields, Seen, IsEntry, Sound;
    SeenIs(r, draw, 37, Chars(12));
  }

  // ----- amounts (api/routes/transactions.py:57-59)

  function AmountToMinorUnits(cents: nat): string {
    Padded(cents, Decimal, 12)
  }

  lemma TwelveDigits()
    ensures Capacity(Decimal, 12) == 1_000_000_000_000
  {
    assert Capacity(Decimal, 4) == 10_000;
    assert Capacity(Decimal, 8) == 100_000_000;
  }

  /** An amount fits DE 4 exactly when it is below 10^12 cents. */
  lemma AmountFitsExact(cents: nat)
    ensures FitsDigits(AmountToMinorUnits(cents), 12) <==> cents < 1_000_000_000_000
  {
    hide Capacity;
    TwelveDigits();
    ValueOfPadded(cents, Decimal, 12);
    PaddedLength(cents, Decimal, 12);
  }

  /** The amount the switch reads in DE 4 is the exact number of cents. */
  lemma SwitchReadsCents(r: Request, draw: nat, cents: nat)
    requires Sound(r) && r.amountMinor == AmountToMinorUnits(cents)
    ensures Seen(r, draw, 4) == AmountToMinorUnits(cents) && ParseInt(Seen(r, draw, 4)) == Some(cents)
  {
    hide FIELD_SPECS, AuthorizeFields, Seen, IsEntry, Padded, Value;
    PathElements();
    RequestElements(r);
    SeenIs(r, draw, 4, Digits(12));
    ValueOfPadded(cents, Decimal, 12);
    PaddedDigits(cents, 12);
  }

  // ----- the PIN

  /** The PIN a switch holding the HSM's base key gets out of a block and serial number. */
  function PinSeen(mac: MockHsm.Mac, ksn: string, block: string, pan: string): Option<string>
    requires MockHsm.IsMac(mac)
  {
    var encrypted :- EncodeLatin1(block);
    PinBlock.RecoverPin(MockHsm.DecryptPinBlock(mac, ksn, encrypted), pan)
  }

  /** From the keypad through DE 52 to the switch: the PIN recovered there is the PIN typed, if that was hex digits. */
  lemma PinArrives(r: Request, draw: nat, mac: MockHsm.Mac, ksn: string, pin: string)
    requires MockHsm.IsMac(mac)
    requires var block := PinBlock.BuildIso0PinBlock(pin, r.pan);
             block.Some? && r.pinBlock == Some(MockHsm.EncryptUnder(mac, ksn, block.value)) && r.ksn == Some(ksn)
    requires Sound(r)
    ensures PinSeen(mac, ksn, Seen(r, draw, 52), Seen(r, draw, 2)) == Some(pin) <==> |pin| <= 14 && AllUpperHex(pin)
    ensures Seen(r, draw, 53) == RJust(ksn, 16, '0')
  {
    hide FIELD_SPECS, AuthorizeFields, Seen, IsEntry, PinBlock.BuildIso0PinBlock, PinBlock.RecoverPin, Sound,
         MockHsm.EncryptUnder, MockHsm.DecryptPinBlock;
    PathElements();
    RequestElements(r);
    SwitchReads(r, draw);
    SeenIs(r, draw, 52, Octets(8));
    SeenIs(r, draw, 53, Digits(16));
    MockHsm.DecryptedPin(mac, ksn, pin, r.pan);
    Latin1RoundTrip("", r.pinBlock.value);
  }

  // ----- the result

  /** authorize after send_and_wait; a failed send is the ConnectionError or OSError branch. */
  function Interpret(result: Correlation.Result, rrn: string): Option<AuthorizationResult> {
    match result
    case TimedOut => Some(AuthorizationResult(Unknown, "", None, None, rrn, true))
    case SendFailed => Some(AuthorizationResult(Unknown, "", None, None, rrn, false))
    case LogFailed => Some(AuthorizationResult(Unknown, "", None, None, rrn, false))
    case Responded(None) => None
    case Responded(Some(reply)) =>
      var code := Get(reply.seen, 39, "");
      Some(AuthorizationResult(
             if code == "00" then Approved else Declined, code,
             Find(reply.seen, 38), Find(reply.seen, 11), Get(reply.seen, 37, rrn), false))
  }

  function Find(m: Message, de: Element): Option<string> {
    if de in m.fields then Some(m.fields[de]) else None
  }

  /** The switch has answered call c's request with this code. */
  predicate AnsweredWith(s: Correlation.State, c: nat, code: string) {
    && c in s.calls && s.calls[c].draw in s.answers && s.answers[s.calls[c].draw].code == code
  }

  predicate Sends(s: Correlation.State, c: nat, r: Request) {
    c in s.calls && s.calls[c].mti == "0200" && s.calls[c].fields == AuthorizeFields(r)
  }

  /** The RRN the switch reads of a message, if it can read the message. */
  function RrnRead(m: Message): Option<string> {
    var seen :- Transmit(m);
    Find(seen, 37)
  }

  /** Of a sound request it reads the request's own. */
  lemma SoundRrnRead(r: Request, draw: nat)
    requires Sound(r) && |r.rrn| == 12 && !IsSpace(r.rrn[11])
    ensures RrnRead(RequestMessage(r, draw)) == Some(r.rrn)
  {
    hide FIELD_SPECS, AuthorizeFields, Sound, Correlation.Stan, Transmit;
    CarriedExact(r, draw);
    TransmitCarried(RequestMessage(r, draw));
    SwitchReads(r, draw);
    RequestElements(r);
    RequestElement(r, draw, 37);
  }

  /** A response to a financial request: the RRN as the switch read it, a code, and the switch's constants. */
  lemma ResponseElements(seen: Message, code: string)
    requires seen.mti == "0200" && Response(seen, code).Some?
    ensures var answer := Response(seen, code).value;
            && Find(answer, 37) == Find(seen, 37) && Find(answer, 38) == Some("A18008") && Get(answer, 39, "") == code
            && Find(answer, 11) == Some(Get(seen, 11, "000000"))
  {
  }

  /**
    What the caller is told about its own request: an approval or a decline is the switch's answer to that very
    request, under its own STAN and the RRN that the switch read of it; the outcome is unknown exactly when no answer
    was handed over in time.
   */
  lemma OutcomeIsOwn(s: Correlation.State, c: nat, r: Request, result: Correlation.Result)
    requires Correlation.Inv(s) && Correlation.At(s, c, Correlation.Done(result)) && Sends(s, c, r)
    ensures Interpret(result, r.rrn).Some?
    ensures var auth, read := Interpret(result, r.rrn).value, RrnRead(RequestMessage(r, s.calls[c].draw));
            && auth.rrn == (if result.Responded? && read.Some? then read.value else r.rrn)
            && (auth.outcome.Approved? ==> AnsweredWith(s, c, "00"))
            && (auth.outcome.Declined? ==> auth.responseCode != "00" && AnsweredWith(s, c, auth.responseCode))
            && (auth.outcome.Unknown? <==> !result.Responded?)
            && (auth.reversalSent <==> result.TimedOut?)
            && (result.Responded? ==>
                  auth.stan == Some(Correlation.Stan(s.calls[c].draw)) && auth.authorizationId == Some("A18008"))
  {
    hide AuthorizeFields, Correlation.Inv, Correlation.Stan, Legible, Transmit, Response;
    var draw := s.calls[c].draw;
    assert Correlation.Outgoing(s.calls[c]) == RequestMessage(r, draw);
    match result
    case Responded(response) =>
      Correlation.InvResponseIsOwn(s, c, response);
      LegibleType(RequestMessage(r, draw));
      ResponseElements(Transmit(RequestMessage(r, draw)).value, s.answers[draw].code);
    case _ =>
  }

  lemma LegibleType(m: Message)
    requires Legible(m)
    ensures Transmit(m).Some? && Transmit(m).value.mti == m.mti && Get(Transmit(m).value, 11, "000000") == m.fields[11]
  {
    hide Transmit, Answerable;
  }

  lemma RequestStan(r: Request, draw: nat)
    ensures var m := RequestMessage(r, draw); 11 in m.fields && m.fields[11] == Correlation.Stan(draw)
  {
  }

  /** Sound requests are legible. */
  lemma SoundIsLegible(r: Request, draw: nat)
    requires Sound(r)
    ensures Legible(RequestMessage(r, draw)) && Carried(RequestMessage(r, draw))
  {
    hide FIELD_SPECS, Transmit, RequestMessage, AuthorizeFields, Sound, Correlation.Stan, Legible;
    CarriedExact(r, draw);
    Correlation.StanText(draw);
    RequestStan(r, draw);
    CarriedIsLegible(RequestMessage(r, draw));
  }

  // ----- an unknown outcome without a reversal does not mean the switch never saw the request

  lemma OneMore(s: Correlation.State, a: Correlation.Action, t: Correlation.State)
    requires Correlation.Reachable(s) && s.draws < Correlation.STAN_MODULUS && Correlation.Step(s, a, t)
    ensures Correlation.Reachable(t)
  {
    hide Correlation.Step, Correlation.Reachable;
    assert Correlation.StanWindow(s);
    Correlation.OneMore(s, a, t);
  }

  /** A first call, registered and about to send. */
  ghost predicate IsFirst(s: Correlation.State, r: Request) {
    && Correlation.Reachable(s) && s.draws == 1 && Correlation.At(s, 0, Correlation.Registered) && Sends(s, 0, r)
    && s.calls[0].draw == 1 && !s.calls[0].event && s.calls[0].reversal.None? && s.dispatches == map[]
  }

  lemma FirstCall(r: Request, fileLogged: bool) returns (s: Correlation.State)
    ensures IsFirst(s, r) && s.fileLogged == fileLogged
  {
    hide AuthorizeFields, Correlation.Stan, Correlation.Reachable;
    Correlation.InitReachable(fileLogged);
    var init := Correlation.Init(fileLogged);
    var drawn := Correlation.StartCall(init, 0, "0200", AuthorizeFields(r));
    OneMore(init, Correlation.Starts(0, "0200", AuthorizeFields(r)), drawn);
    s := Correlation.Register(drawn, 0);
    OneMore(drawn, Correlation.Registers(0), s);
  }

  /** The switch never keeps silent about a request that carries no DE 48. */
  lemma SwitchAnswers(r: Request, draw: nat, code: string)
    requires Sound(r)
    ensures Response(Correlation.Seen(RequestMessage(r, draw)), code).Some?
  {
    hide FIELD_SPECS, Sound, Correlation.Stan, Transmit;
    CarriedExact(r, draw);
    TransmitCarried(RequestMessage(r, draw));
  }

  // ----- an answer in time is what the caller is told

  /** A call that has just drawn the first STAN. */
  function FirstDrawn(r: Request, fileLogged: bool): Correlation.State {
    Correlation.StartCall(Correlation.Init(fileLogged), 0, "0200", AuthorizeFields(r))
  }

  lemma FirstDrawnIs(r: Request, fileLogged: bool)
    ensures var s := FirstDrawn(r, fileLogged);
            && Correlation.Reachable(s) && s.draws == 1 && Correlation.At(s, 0, Correlation.Drawn) && Sends(s, 0, r)
            && s.calls[0].draw == 1 && !s.calls[0].event && s.dispatches == map[] && s.replies == {}
  {
    hide AuthorizeFields, Correlation.Stan, Correlation.Reachable;
    Correlation.InitReachable(fileLogged);
    var init := Correlation.Init(fileLogged);
    OneMore(init, Correlation.Starts(0, "0200", AuthorizeFields(r)), FirstDrawn(r, fileLogged));
  }

  /** It registers, writes, and the switch answers. */
  lemma FirstAnswered(r: Request, fileLogged: bool, code: string) returns (s: Correlation.State)
    requires Sound(r) && IsResponseCode(code)
    ensures Correlation.Leads(FirstDrawn(r, fileLogged), s) && Correlation.Reachable(s)
    ensures s.draws == 1 && Correlation.At(s, 0, Correlation.Waiting) && !s.calls[0].event
    ensures Sends(s, 0, r) && AnsweredWith(s, 0, code) && s.calls[0].draw == 1
    ensures 1 in s.replies && 1 !in s.dispatches
  {
    hide AuthorizeFields, Sound, Legible, Transmit, Carried, Correlation.Stan, Correlation.Seen, Correlation.Reachable,
         FirstDrawn, Correlation.Leads;
    var drawn := FirstDrawn(r, fileLogged);
    FirstDrawnIs(r, fileLogged);
    Correlation.LeadsSelf(drawn);
    var registered := Correlation.Register(drawn, 0);
    GoOn(drawn, drawn, Correlation.Registers(0), registered);
    SoundIsLegible(r, 1);
    SwitchAnswers(r, 1, code);
    var written := Correlation.Write(registered, 0);
    GoOn(drawn, registered, Correlation.Writes(0), written);
    s := Correlation.Respond(written, 1, code);
    GoOn(drawn, written, Correlation.Responds(1, code), s);
  }

  lemma GoOn(start: Correlation.State, s: Correlation.State, a: Correlation.Action, t: Correlation.State)
    requires Correlation.Reachable(s) && Correlation.Leads(start, s) && s.draws < Correlation.STAN_MODULUS
    requires Correlation.Step(s, a, t) && !a.Starts?
    ensures Correlation.Reachable(t) && Correlation.Leads(start, t)
  {
    hide Correlation.Reachable, Correlation.Leads, Correlation.Step;
    OneMore(s, a, t);
    assert Correlation.StanWindow(s);
    Correlation.LeadsOn(start, s, a, t);
  }

  /**
    For every request that fits and every response code the call can come to be answered with that code and told so:
    approved for "00", else declined, with the code, the approval number, the STAN and its own RRN.
   */
  lemma AnswerIsTold(r: Request, fileLogged: bool, code: string)
    returns (s: Correlation.State, response: Correlation.Reply)
    requires Sound(r) && |r.rrn| == 12 && !IsSpace(r.rrn[11]) && IsResponseCode(code)
    ensures Correlation.Leads(FirstDrawn(r, fileLogged), s) && Correlation.Reachable(s)
    ensures Sends(s, 0, r) && AnsweredWith(s, 0, code) && s.calls[0].draw == 1
    ensures Correlation.At(s, 0, Correlation.Done(Correlation.Responded(Some(response))))
    ensures Interpret(Correlation.Responded(Some(response)), r.rrn) ==
            Some(AuthorizationResult(
                   if code == "00" then Approved else Declined, code, Some("A18008"), Some("000001"), r.rrn, false))
  {
    hide AuthorizeFields, Sound, Correlation.Reachable, Correlation.Stan, Interpret, Legible, Transmit, Response,
         Correlation.Inv, Correlation.Leads, FirstDrawn;
    var drawn := FirstDrawn(r, fileLogged);
    var answered := FirstAnswered(r, fileLogged, code);
    assert Correlation.StanWindow(answered);
    Correlation.ReachableKeeps(answered);
    s := Handover.CanBeAnswered(drawn, answered, 0);
    FirstDrawnIs(r, fileLogged);
    Correlation.StillReachable(drawn, s);
    response := Correlation.Reply(1, answered.answers[1].seen);
    StillSends(answered, s, r);
    Told(s, r, code, response);
  }

  lemma StillSends(s: Correlation.State, t: Correlation.State, r: Request)
    requires Sends(s, 0, r) && 0 in t.calls && t.calls[0].mti == s.calls[0].mti && t.calls[0].fields == s.calls[0].fields
    ensures Sends(t, 0, r)
  {
    hide AuthorizeFields;
  }

  lemma Told(s: Correlation.State, r: Request, code: string, response: Correlation.Reply)
    requires Correlation.Reachable(s) && Sends(s, 0, r) && AnsweredWith(s, 0, code) && s.calls[0].draw == 1
    requires Sound(r) && |r.rrn| == 12 && !IsSpace(r.rrn[11])
    requires Correlation.At(s, 0, Correlation.Done(Correlation.Responded(Some(response))))
    ensures Interpret(Correlation.Responded(Some(response)), r.rrn) ==
            Some(AuthorizationResult(
                   if code == "00" then Approved else Declined, code, Some("A18008"), Some("000001"), r.rrn, false))
  {
    hide AuthorizeFields, Sound, Correlation.Reachable, Correlation.Inv, Correlation.Stan, Legible, Transmit, Response;
    Correlation.ReachableKeeps(s);
    Correlation.InvResponseIsOwn(s, 0, Some(response));
    assert Correlation.Outgoing(s.calls[0]) == RequestMessage(r, 1);
    LegibleType(RequestMessage(r, 1));
    RequestStan(r, 1);
    ResponseElements(Transmit(RequestMessage(r, 1)).value, code);
    SoundRrnRead(r, 1);
    FirstStan();
  }

  lemma FirstStan()
    ensures Correlation.Stan(1) == "000001"
  {
  }

  /** The wait runs out, the reversal is written, and the caller is told unknown, with a reversal sent. */
  lemma TimeoutIsTold(r: Request) returns (s: Correlation.State)
    requires Sound(r)
    ensures Correlation.Reachable(s) && Sends(s, 0, r) && Correlation.At(s, 0, Correlation.Done(Correlation.TimedOut))
    ensures 2 in s.written && s.calls[0].reversal == Some(2)
    ensures Interpret(Correlation.TimedOut, r.rrn) == Some(AuthorizationResult(Unknown, "", None, None, r.rrn, true))
  {
    hide AuthorizeFields, Sound, Correlation.Reachable, Correlation.At, Sends, AnsweredWith;
    var answered := FirstAnswered(r, false, "00");
    var reversing := ThenGivesUp(r, answered, "00");
    s := ThenReverses(r, reversing);
  }

  lemma ThenReverses(r: Request, s: Correlation.State) returns (t: Correlation.State)
    requires Correlation.Reachable(s) && s.draws == 2 && Correlation.At(s, 0, Correlation.Reversing)
    requires Sends(s, 0, r) && s.calls[0].reversal == Some(2)
    ensures Correlation.Reachable(t) && Sends(t, 0, r) && Correlation.At(t, 0, Correlation.Done(Correlation.TimedOut))
    ensures 2 in t.written && t.calls[0].reversal == Some(2)
  {
    hide AuthorizeFields, Correlation.Reachable, Correlation.Stan, Correlation.ReversalOf, Correlation.Seen;
    var written := Correlation.WriteReversal(s, 0);
    OneMore(s, Correlation.WritesReversal(0), written);
    t := Correlation.Leave(written, 0);
    OneMore(written, Correlation.Leaves(0), t);
  }

  // ----- an unknown outcome, after all

  lemma ThenGivesUp(r: Request, s: Correlation.State, code: string) returns (t: Correlation.State)
    requires Correlation.Reachable(s) && s.draws == 1 && Correlation.At(s, 0, Correlation.Waiting) && !s.calls[0].event
    requires Sends(s, 0, r) && AnsweredWith(s, 0, code)
    ensures Correlation.Reachable(t) && t.draws == 2 && Correlation.At(t, 0, Correlation.Reversing)
    ensures t.calls[0].reversal == Some(2)
    ensures Sends(t, 0, r) && AnsweredWith(t, 0, code)
  {
    hide AuthorizeFields, Correlation.Reachable;
    var waited := Correlation.Expire(s, 0);
    OneMore(s, Correlation.Expires(0), waited);
    t := Correlation.DrawReversal(waited, 0);
    OneMore(waited, Correlation.DrawsReversal(0), t);
  }

  lemma ThenFails(r: Request, s: Correlation.State) returns (t: Correlation.State)
    requires Correlation.Reachable(s) && s.draws == 2 && Correlation.At(s, 0, Correlation.Reversing)
    requires Sends(s, 0, r) && AnsweredWith(s, 0, "00")
    ensures Correlation.Reachable(t) && Correlation.At(t, 0, Correlation.Done(Correlation.SendFailed))
    ensures Sends(t, 0, r) && AnsweredWith(t, 0, "00")
  {
    hide AuthorizeFields, Correlation.Reachable, Correlation.Stan;
    var failed := Correlation.FailReversal(s, 0);
    OneMore(s, Correlation.FailsReversal(0), failed);
    t := Correlation.Leave(failed, 0);
    OneMore(failed, Correlation.Leaves(0), t);
  }

  /** The switch has approved, the wait runs out, and then the reversal cannot be sent. */
  lemma UnknownAfterApproval(r: Request) returns (s: Correlation.State)
    requires Sound(r)
    ensures Correlation.Reachable(s) && Correlation.At(s, 0, Correlation.Done(Correlation.SendFailed))
    ensures Sends(s, 0, r) && AnsweredWith(s, 0, "00")
    ensures Interpret(Correlation.SendFailed, r.rrn).value.outcome.Unknown?
    ensures !Interpret(Correlation.SendFailed, r.rrn).value.reversalSent
  {
    hide AuthorizeFields, Sound, Correlation.Reachable, Correlation.At, Sends, AnsweredWith;
    var approved := FirstAnswered(r, false, "00");
    var reversing := ThenGivesUp(r, approved, "00");
    s := ThenFails(r, reversing);
  }

  lemma RaisedThenApproved(r: Request) returns (s: Correlation.State)
    requires Sound(r)
    ensures Correlation.Reachable(s) && s.fileLogged && s.draws == 1
    ensures Correlation.At(s, 0, Correlation.Leaving(Correlation.LogFailed)) && s.calls[0].reversal.None?
    ensures Sends(s, 0, r) && AnsweredWith(s, 0, "00")
  {
    hide AuthorizeFields, Sound, Legible, Transmit, Carried, Correlation.Stan, Correlation.Seen, Correlation.Reachable;
    var first := FirstCall(r, true);
    SoundIsLegible(r, 1);
    SwitchAnswers(r, 1, "00");
    var raised := Correlation.WriteThenRaise(first, 0);
    OneMore(first, Correlation.WritesThenRaises(0), raised);
    s := Correlation.Respond(raised, 1, "00");
    OneMore(raised, Correlation.Responds(1, "00"), s);
  }

  /** The frame is written, the audit logger raises over it, and the switch approves all the same. */
  lemma UnknownAfterLogError(r: Request) returns (s: Correlation.State)
    requires Sound(r)
    ensures Correlation.Reachable(s) && s.fileLogged && Correlation.At(s, 0, Correlation.Done(Correlation.LogFailed))
    ensures Sends(s, 0, r) && AnsweredWith(s, 0, "00") && s.calls[0].reversal.None?
    ensures Interpret(Correlation.LogFailed, r.rrn).value.outcome.Unknown?
    ensures !Interpret(Correlation.LogFailed, r.rrn).value.reversalSent
  {
    hide AuthorizeFields, Sound, Correlation.Stan, Correlation.Reachable;
    var answered := RaisedThenApproved(r);
    s := Correlation.Leave(answered, 0);
    OneMore(answered, Correlation.Leaves(0), s);
  }
}
