/**
  Payments over the built-in transport (api/routes/transactions.py:61-62, 117-134): every call of the payment machine
  is a call of the correlation machine, and their steps interleave with those of the switch and the network.
 */
module Saga {
  import opened Wrappers
  import opened Text
  import Bytes
  import opened Payments
  import HostSwitch
  import Idempotency
  import Codec
  import Correlation
  import EntryModes
  import FieldCatalogue
  import Ledger
  import MockHsm
  import PinBlock
  import RiskGate
  import Serials
  import Transport

  // ----- RRNs

  /** time is int(time.time()), random is secrets.randbelow(100). */
  function GenerateRrn(time: nat, random: nat): string {
    Padded(time % 10_000_000_000, Decimal, 10) + Padded(random, Decimal, 2)
  }

  ghost predicate IsGenerated(rrn: string) {
    exists time, random: nat :: random < 100 && rrn == GenerateRrn(time, random)
  }

  lemma TenDigits(n: nat)
    ensures |Padded(n % 10_000_000_000, Decimal, 10)| == 10
  {
    hide Padded;
    assert Capacity(Decimal, 4) == 10_000;
    assert Capacity(Decimal, 7) == 10_000_000;
    PaddedLength(n % 10_000_000_000, Decimal, 10);
  }

  /** Two generated RRNs are the same exactly when second (modulo 10^10) and random number are. */
  lemma RrnCollisionExact(time: nat, random: nat, otherTime: nat, otherRandom: nat)
    requires random < 100 && otherRandom < 100
    ensures EntryModes.IsRrn(GenerateRrn(time, random))
    ensures GenerateRrn(time, random) == GenerateRrn(otherTime, otherRandom) <==>
            time % 10_000_000_000 == otherTime % 10_000_000_000 && random == otherRandom
  {
    hide Padded;
    TenDigits(time);
    TenDigits(otherTime);
    Codec.CapacityOfPrefixes();
    PaddedLength(random, Decimal, 2);
    PaddedDigits(time % 10_000_000_000, 10);
    PaddedDigits(random, 2);
    var a, b := GenerateRrn(time, random), GenerateRrn(otherTime, otherRandom);
    if a == b {
      assert a[..10] == b[..10] && a[10..] == b[10..];
      PaddedInjective(time % 10_000_000_000, otherTime % 10_000_000_000, Decimal, 10);
      PaddedInjective(random, otherRandom, Decimal, 2);
    }
  }

  /** Ten digits of the second, two of the random number. */
  lemma RrnExact(time: nat, random: nat)
    requires random < 100
    ensures |GenerateRrn(time, random)| == 12
    ensures ParseInt(GenerateRrn(time, random)[..10]) == Some(time % 10_000_000_000)
    ensures ParseInt(GenerateRrn(time, random)[10..]) == Some(random)
  {
    hide Padded, Value;
    TenDigits(time);
    Codec.CapacityOfPrefixes();
    PaddedLength(random, Decimal, 2);
    PaddedDigits(time % 10_000_000_000, 10);
    PaddedDigits(random, 2);
    ValueOfPadded(time % 10_000_000_000, Decimal, 10);
    ValueOfPadded(random, Decimal, 2);
    assert GenerateRrn(time, random)[..10] == Padded(time % 10_000_000_000, Decimal, 10);
    assert GenerateRrn(time, random)[10..] == Padded(random, Decimal, 2);
  }

  lemma GeneratedIsRrn(rrn: string)
    requires IsGenerated(rrn)
    ensures EntryModes.IsRrn(rrn) && !IsSpace(rrn[11])
  {
    hide GenerateRrn, EntryModes.IsRrn;
    var time, random: nat :| random < 100 && rrn == GenerateRrn(time, random);
    RrnCollisionExact(time, random, time, random);
    RrnEndsInDigit(rrn);
  }

  lemma RrnEndsInDigit(rrn: string)
    requires EntryModes.IsRrn(rrn)
    ensures |rrn| == 12 && !IsSpace(rrn[11])
  {
    assert IsDigit(rrn[11]);
  }

  // ----- the state

  /** core is the payment machine's state, net the correlation machine's, hsm the serial numbers'. */
  datatype State = State(core: Payments.State, net: Correlation.State, hsm: Serials.State)

  function Begin(w: World): State {
    State.State(Payments.Start(w), Correlation.Init(w.fileLogged), Serials.Init())
  }

  function AuthorizeRequest(p: Payment, rrn: string): Transport.Request {
    Transport.Request(
      p.order.cardNumber, if p.order.kind.Transfer? then "400000" else "000000",
      Transport.AmountToMinorUnits(p.order.amountCents), EntryMode(p.order), rrn, "840",
      Some(p.block), Some(p.ksn), if p.order.kind.Transfer? then Some(p.recipient) else None)
  }

  // ----- the steps

  /** The RRN that the switch reads of call t's message, if the message can be built and parsed at all. */
  function ReadOf(net: Correlation.State, t: nat): Option<string> {
    if t in net.calls then Transport.RrnRead(Correlation.Outgoing(net.calls[t])) else None
  }

  /** Nobody has sent a message of which the switch reads this RRN. */
  ghost predicate Unread(net: Correlation.State, rrn: string) {
    rrn != "" && forall t :: ReadOf(net, t) != Some(rrn)
  }

  /** Every value fits its element, but for a purchase's entry mode; or build_message raises on the request. */
  ghost predicate Faithful(r: Transport.Request) {
    EntryModes.FitsButMode(r) ||
    forall draw: nat :: Codec.Build(FieldCatalogue.FIELD_SPECS, "0200", Transport.RequestMessage(r, draw).fields).None?
  }

  function HsmBlock(w: World, o: Order, ksn: string): Option<seq<Bytes.byte>>
    requires MockHsm.IsMac(w.mac)
  {
    var block :- PinBlock.BuildIso0PinBlock(o.pin, o.cardNumber);
    Some(MockHsm.EncryptUnder(w.mac, ksn, block))
  }

  /** The call uses the serial number it has drawn. */
  ghost predicate HsmEncrypts(
      w: World, s: State, u: State, t: nat, o: Order, ksn: string, block: Option<seq<Bytes.byte>>)
  {
    && MockHsm.IsMac(w.mac) && u.net == s.net && u.hsm == s.hsm && Serials.HasRead(s.hsm, t)
    && ksn == MockHsm.KsnText(s.hsm.draws[t].stage.value) && block == HsmBlock(w, o, ksn)
  }

  function SendFields(s: Payments.State, t: nat, rrn: string): map<HostSwitch.Element, string>
    requires t in s.threads
  {
    Transport.AuthorizeFields(AuthorizeRequest(s.threads[t].payment, rrn))
  }

  /** authorize draws a STAN; call t of the correlation layer belongs to thread t. */
  ghost predicate CallStarts(s: State, u: State, t: nat, rrn: string)
    requires t in s.core.threads
  {
    && IsGenerated(rrn) && Faithful(AuthorizeRequest(s.core.threads[t].payment, rrn))
    && t !in s.net.calls && u.net == Correlation.StartCall(s.net, t, "0200", SendFields(s.core, t, rrn))
    && (ReadOf(u.net, t).Some? ==> Unread(s.net, ReadOf(u.net, t).value))
    && u.hsm == s.hsm
  }

  /** authorize reads the result; a message that cannot be built is an exception it does not catch. */
  predicate CallEnds(s: State, u: State, t: nat, auth: Option<Transport.AuthorizationResult>)
    requires t in s.core.threads
  {
    var th := s.core.threads[t];
    && t in s.net.calls && s.net.calls[t].pc.Done? && th.rrn.Some?
    && (auth == Transport.Interpret(s.net.calls[t].pc.result, th.rrn.value) ||
        (auth.None? && s.net.calls[t].pc.result.SendFailed? &&
         !Transport.Sound(AuthorizeRequest(th.payment, th.rrn.value))))
    && u.net == s.net && u.hsm == s.hsm
  }

  /** What a step of the payment machine does to the HSM and the correlation layer. */
  ghost predicate Around(w: World, s: State, b: Payments.Action, u: State)
    requires Payments.Step(w, s.core, b, u.core)
  {
    match b
    case Encrypts(t, ksn, block) => HsmEncrypts(w, s, u, t, s.core.threads[t].payment.order, ksn, block)
    case Sends(t, rrn) => CallStarts(s, u, t, rrn)
    case Finishes(t, auth) => CallEnds(s, u, t, auth)
    case _ => u.net == s.net && u.hsm == s.hsm
  }

  /** A step of the correlation layer, of the switch, or of what lies between them; calls are only started by Sends. */
  ghost predicate CanTravel(s: State, a: Correlation.Action, net: Correlation.State) {
    !a.Starts? && Correlation.StanWindow(s.net) && Correlation.Step(s.net, a, net)
  }

  /** A call that may encrypt draws its serial number. */
  ghost predicate CanDraw(s: State, a: Serials.Action, hsm: Serials.State) {
    Payments.At(s.core, a.c, Cleared) && Serials.Step(s.hsm, a, hsm)
  }

  datatype Action = Pays(b: Payments.Action) | Travels(a: Correlation.Action) | Draws(d: Serials.Action)

  ghost predicate Step(w: World, s: State, a: Action, u: State) {
    match a
    case Pays(b) => Payments.Step(w, s.core, b, u.core) && Around(w, s, b, u)
    case Travels(a) => CanTravel(s, a, u.net) && u == s.(net := u.net)
    case Draws(d) => CanDraw(s, d, u.hsm) && u == s.(hsm := u.hsm)
  }

  ghost predicate IsStep(w: World, states: seq<State>, actions: seq<Action>, i: nat)
    requires i < |actions| < |states|
  {
    Step(w, states[i], actions[i], states[i + 1])
  }

  ghost predicate IsRun(w: World, states: seq<State>, actions: seq<Action>) {
    && |states| == |actions| + 1 && states[0] == Begin(w)
    && forall i | 0 <= i < |actions| :: IsStep(w, states, actions, i)
  }

  ghost predicate Reachable(w: World, s: State) {
    exists states, actions :: IsRun(w, states, actions) && states[|actions|] == s
  }

  /** Every run is a run of the payment machine, with steps of the network and the HSM in between. */
  lemma {:induction false} CoreReachable(w: World, states: seq<State>, actions: seq<Action>, i: nat)
    requires IsRun(w, states, actions) && i <= |actions|
    ensures Payments.Reachable(w, states[i].core)
  {
    hide Payments.Reachable, Payments.Step, Around, CanTravel, CanDraw;
    if i == 0 {
      Payments.StartReachable(w);
    } else {
      CoreReachable(w, states, actions, i - 1);
      assert IsStep(w, states, actions, i - 1);
      match actions[i - 1]
      case Pays(b) => Payments.OneMore(w, states[i - 1].core, b, states[i].core);
      case _ =>
    }
  }

  /** A run goes on with any step, and with any path of the network. */
  lemma OneMore(w: World, s: State, a: Action, u: State)
    requires Reachable(w, s) && Step(w, s, a, u)
    ensures Reachable(w, u)
  {
    hide Step;
    var states, actions :| IsRun(w, states, actions) && states[|actions|] == s;
    var more, done := states + [u], actions + [a];
    forall i | 0 <= i < |done|
      ensures IsStep(w, more, done, i)
    {
      if i < |actions| {
        assert IsStep(w, states, actions, i);
      }
    }
    assert IsRun(w, more, done);
  }

  lemma {:induction false} Travel(
      w: World, s: State, net: Correlation.State, states: seq<Correlation.State>, actions: seq<Correlation.Action>,
      i: nat)
    requires Reachable(w, s) && Correlation.IsPath(s.net, states, actions, net) && i <= |actions|
    ensures Reachable(w, s.(net := states[i]))
  {
    hide Reachable, Correlation.Step, Correlation.StanWindow;
    if i > 0 {
      Travel(w, s, net, states, actions, i - 1);
      assert Correlation.IsStep(states, actions, i - 1);
      OneMore(w, s.(net := states[i - 1]), Travels(actions[i - 1]), s.(net := states[i]));
    } else {
      assert s.(net := states[0]) == s;
    }
  }

  lemma Travelled(w: World, s: State, net: Correlation.State)
    requires Reachable(w, s) && Correlation.Leads(s.net, net)
    ensures Reachable(w, s.(net := net))
  {
    hide Reachable, Correlation.IsStep;
    var states, actions :| Correlation.IsPath(s.net, states, actions, net);
    Travel(w, s, net, states, actions, |actions|);
  }

  // ----- the invariant

  ghost predicate EncryptedOk(w: World, p: Payment) {
    && MockHsm.IsMac(w.mac)
    && var block := PinBlock.BuildIso0PinBlock(p.order.pin, p.order.cardNumber);
       block.Some? && p.block == MockHsm.EncryptUnder(w.mac, p.ksn, block.value)
  }

  /** authorize has its answer, or knows that it gets none. */
  predicate Finished(net: Correlation.State, t: nat) {
    t in net.calls && net.calls[t].pc.Done?
  }

  ghost predicate DeclinedBySwitch(net: Correlation.State, t: nat) {
    exists code :: code != "00" && Transport.AnsweredWith(net, t, code)
  }

  predicate Unposted(s: State, t: nat) {
    ReadOf(s.net, t).Some? ==> ReadOf(s.net, t).value !in s.core.ledger.transactions
  }

  predicate AuthOk(s: State, t: nat, auth: Transport.AuthorizationResult)
    requires t in s.core.threads
  {
    && s.core.threads[t].rrn.Some? && Unposted(s, t) && Finished(s.net, t)
    && (auth.outcome.Unknown? <==> !s.net.calls[t].pc.result.Responded?)
    && (!auth.outcome.Unknown? ==> ReadOf(s.net, t) == Some(auth.rrn) && auth.rrn != "")
    && (auth.outcome.Approved? ==> Transport.AnsweredWith(s.net, t, "00"))
    && (auth.outcome.Declined? ==> auth.responseCode != "00" && Transport.AnsweredWith(s.net, t, auth.responseCode))
  }

  /** What a body says is so: only approvals are in the ledger, under the RRN the switch has read. */
  ghost predicate ReportOk(s: State, t: nat, body: Body)
    requires t in s.core.threads
  {
    var th := s.core.threads[t];
    && (body.status.Approved? ==> th.rrn.Some?)
    && body.rrn == (if body.status.Approved? then ReadOf(s.net, t) else th.rrn)
    && (body.status.Declined? ==> DeclinedBySwitch(s.net, t))
    && (th.rrn.Some? ==>
          && (body.status.Approved? <==> !Unposted(s, t))
          && Finished(s.net, t) && (body.status.Unknown? <==> !s.net.calls[t].pc.result.Responded?))
  }

  ghost predicate SendOk(w: World, s: State, t: nat)
    requires t in s.core.threads
  {
    var th := s.core.threads[t];
    && (th.pc.Encrypted? || th.rrn.Some? ==> EncryptedOk(w, th.payment))
    && (th.rrn.Some? ==>
          && IsGenerated(th.rrn.value) && Faithful(AuthorizeRequest(th.payment, th.rrn.value))
          && Transport.Sends(s.net, t, AuthorizeRequest(th.payment, th.rrn.value)) && ReadOf(s.net, t) != Some(""))
    && match th.pc
       case Sent => th.rrn.Some? && Unposted(s, t)
       case Authorized(auth) => AuthOk(s, t, auth)
       case Posted(body) => ReportOk(s, t, body)
       case Ended(Returned(body)) => th.won ==> ReportOk(s, t, body)
       case _ => true
  }

  ghost predicate InvSends(w: World, s: State) {
    forall t | t in s.core.threads :: SendOk(w, s, t)
  }

  /** The calls of the correlation layer are those of the threads that have sent, no two read under one RRN. */
  ghost predicate InvNet(s: State) {
    && Correlation.Inv(s.net)
    && (forall t :: t in s.net.calls <==> HasSent(s.core, t))
    && (forall t, u | ReadOf(s.net, t).Some? && ReadOf(s.net, t) == ReadOf(s.net, u) :: t == u)
  }

  /** The switch read this RRN of thread t's message and approved it, and it was posted between the right accounts. */
  ghost predicate IsPoster(s: State, rrn: string, t: nat)
    requires rrn in s.core.ledger.transactions
  {
    && HasSent(s.core, t) && ReadOf(s.net, t) == Some(rrn) && Transport.AnsweredWith(s.net, t, "00")
    && var p := s.core.threads[t].payment;
       && s.core.ledger.transactions[rrn].amountCents == p.order.amountCents
       && Ledger.EntriesOf(s.core.ledger.entries, rrn) ==
          Ledger.Posting(rrn, p.sender, p.recipient, p.order.amountCents)
  }

  ghost predicate InvPosted(s: State) {
    forall rrn | rrn in s.core.ledger.transactions :: exists t :: IsPoster(s, rrn, t)
  }

  ghost predicate Inv(w: World, s: State) {
    && Payments.Inv(w, s.core) && RiskGate.InvBooks(w, s.core)
    && InvSends(w, s) && InvNet(s) && InvPosted(s) && Serials.Inv(s.hsm)
  }

  // ----- what a step of one thread leaves alone

  lemma NetFactsKept(s: Correlation.State, u: Correlation.State, t: nat, r: Transport.Request)
    requires Correlation.Extends(s, u)
    ensures Transport.Sends(s, t, r) ==> Transport.Sends(u, t, r)
    ensures forall code | Transport.AnsweredWith(s, t, code) :: Transport.AnsweredWith(u, t, code)
    ensures DeclinedBySwitch(s, t) ==> DeclinedBySwitch(u, t)
    ensures Finished(s, t) ==> Finished(u, t) && u.calls[t].pc == s.calls[t].pc
    ensures t in s.calls ==> ReadOf(u, t) == ReadOf(s, t)
  {
    hide Transport.AuthorizeFields, Transport.RrnRead, Correlation.Stan;
    forall code | Transport.AnsweredWith(s, t, code)
      ensures Transport.AnsweredWith(u, t, code)
    {
    }
  }

  /** Of what a thread relies on nothing has changed. */
  predicate Unmoved(s: State, u: State, e: nat)
    requires e in s.core.threads
  {
    var th := s.core.threads[e];
    && e in u.core.threads && u.core.threads[e] == th
    && (ReadOf(s.net, e).Some? ==>
          (ReadOf(s.net, e).value in u.core.ledger.transactions <==> ReadOf(s.net, e).value in s.core.ledger.transactions))
  }

  lemma UnmovedKept(w: World, s: State, u: State, e: nat)
    requires e in s.core.threads && SendOk(w, s, e) && Unmoved(s, u, e) && Correlation.Extends(s.net, u.net)
    ensures SendOk(w, u, e)
  {
    hide Transport.AnsweredWith, DeclinedBySwitch, AuthorizeRequest, EncryptedOk, IsGenerated, Faithful, ReadOf,
         Correlation.Extends, Transport.AuthorizeFields;
    var th := s.core.threads[e];
    NetFactsKept(s.net, u.net, e, AuthorizeRequest(th.payment, if th.rrn.Some? then th.rrn.value else ""));
  }

  /** Only thread t has moved, and nothing but its own RRN may have come into the ledger. */
  ghost predicate Alone(s: State, u: State, t: nat) {
    && (forall e | e in s.core.threads && e != t :: Unmoved(s, u, e))
    && (forall e | e in u.core.threads && e != t :: e in s.core.threads)
    && Correlation.Extends(s.net, u.net)
  }

  lemma SendsOfParts(w: World, s: State, u: State, t: nat)
    requires InvSends(w, s) && Alone(s, u, t) && (t in u.core.threads ==> SendOk(w, u, t))
    ensures InvSends(w, u)
  {
    hide SendOk, Unmoved, Correlation.Extends;
    forall e | e in u.core.threads
      ensures SendOk(w, u, e)
    {
      if e != t {
        UnmovedKept(w, s, u, e);
      }
    }
  }

  lemma SelfExtends(net: Correlation.State)
    ensures Correlation.Extends(net, net)
  {
  }

  /** The threads that have sent keep their RRNs and payments; others may have joined them. */
  ghost predicate SendersRemain(s: Payments.State, u: Payments.State) {
    forall e | HasSent(s, e) ::
      HasSent(u, e) && u.threads[e].rrn == s.threads[e].rrn && u.threads[e].payment == s.threads[e].payment
  }

  lemma SameSendersRemain(s: Payments.State, u: Payments.State)
    requires SameSenders(s, u)
    ensures SendersRemain(s, u)
  {
  }

  lemma PostedKept(s: State, u: State)
    requires InvPosted(s) && SendersRemain(s.core, u.core) && Correlation.Extends(s.net, u.net)
    requires u.core.ledger == s.core.ledger
    ensures InvPosted(u)
  {
    hide Transport.AnsweredWith, Ledger.EntriesOf, Ledger.Posting, Correlation.Extends, ReadOf, AuthorizeRequest,
         DeclinedBySwitch;
    OnlyCallsRead(s.net);
    forall rrn | rrn in u.core.ledger.transactions
      ensures exists t :: IsPoster(u, rrn, t)
    {
      var t :| IsPoster(s, rrn, t);
      NetFactsKept(s.net, u.net, t, AuthorizeRequest(s.core.threads[t].payment, ""));
      assert IsPoster(u, rrn, t);
    }
  }

  lemma NetKept(s: State, u: State)
    requires InvNet(s) && SameSenders(s.core, u.core) && u.net == s.net
    ensures InvNet(u)
  {
    hide Correlation.Inv;
  }

  // ----- steps of the payment machine that leave net and ledger alone

  lemma AloneIfSame(s: State, u: State, t: nat)
    requires u.net == s.net && u.core.ledger == s.core.ledger && t in u.core.threads
    requires u.core.threads == s.core.threads[t := u.core.threads[t]]
    ensures Alone(s, u, t)
  {
    hide Correlation.Extends;
    SelfExtends(s.net);
  }

  /** A step that neither sends nor posts, for a thread that is seen to be in order afterwards. */
  lemma PlainKeeps(w: World, s: State, b: Payments.Action, u: State)
    requires Inv(w, s) && Payments.Step(w, s.core, b, u.core) && !b.Sends? && !b.Posts? && u.net == s.net
    requires b.t in u.core.threads ==> SendOk(w, u, b.t)
    ensures InvSends(w, u) && InvNet(u) && InvPosted(u)
  {
    hide Payments.Inv, Payments.Step, RiskGate.InvBooks, InvSends, InvNet, InvPosted, SameSenders, SendersRemain,
         Alone, SendOk, Correlation.Extends;
    Payments.SendersStay(w, s.core, b, u.core);
    RiskGate.OnlyPostingRecords(w, s.core, b, u.core);
    SameSendersRemain(s.core, u.core);
    SelfExtends(s.net);
    AloneIfSame(s, u, b.t);
    SendsOfParts(w, s, u, b.t);
    NetKept(s, u);
    PostedKept(s, u);
  }

  lemma CoreThreadOk(w: World, s: State, t: nat)
    requires Inv(w, s) && t in s.core.threads
    ensures ThreadOk(w, s.core, t) && SendOk(w, s, t)
  {
    hide ThreadOk, SendOk, RiskGate.InvBooks, InvNet, InvPosted;
    Payments.ThreadIsOk(w, s.core, t);
  }

  lemma ArriveSend(w: World, s: State, u: State, t: nat, order: Order)
    requires u.core == Payments.Arrive(s.core, t, order)
    ensures SendOk(w, u, t)
  {
  }

  lemma ClaimSend(w: World, s: State, u: State, t: nat)
    requires Payments.At(s.core, t, Arrived) && ThreadOk(w, s.core, t)
    requires u.core == Payments.Claim(s.core, t)
    ensures SendOk(w, u, t)
  {
    hide Owns, RefusalOk;
  }

  lemma CheckSend(w: World, s: State, u: State, t: nat)
    requires Payments.At(s.core, t, Claimed) && ThreadOk(w, s.core, t)
    requires u.core == Payments.Check(w, s.core, t)
    ensures SendOk(w, u, t)
  {
    hide Owns, RefusalOk, ResolveAccount, CreditTo;
  }

  lemma AssessSend(w: World, s: State, u: State, t: nat, now: real)
    requires Payments.At(s.core, t, Checked) && ThreadOk(w, s.core, t)
    requires u.core == Payments.Assess(w, s.core, t, now)
    ensures SendOk(w, u, t)
  {
    hide Owns, RefusalOk, Evaluate, KeptNow;
  }

  lemma CrashSend(w: World, s: State, u: State, t: nat)
    requires CanCrash(s.core, t) && SendOk(w, s, t)
    requires u.core == Payments.Crash(s.core, t) && u.net == s.net
    ensures SendOk(w, u, t)
  {
    hide EncryptedOk, IsGenerated, Transport.Sends, AuthorizeRequest, ReportOk, AuthOk;
  }

  lemma StoreSend(w: World, s: State, u: State, t: nat)
    requires CanStore(s.core, t) && SendOk(w, s, t)
    requires u.core == Payments.StoreResponse(s.core, t) && u.net == s.net
    ensures SendOk(w, u, t)
  {
    hide EncryptedOk, IsGenerated, Transport.Sends, AuthorizeRequest, DeclinedBySwitch, Idempotency.AtomicStore;
  }

  lemma EncryptSend(w: World, s: State, u: State, t: nat, ksn: string, block: Option<seq<Bytes.byte>>)
    requires Payments.At(s.core, t, Cleared) && ThreadOk(w, s.core, t)
    requires u.core == Payments.Encrypt(s.core, t, ksn, block)
    requires HsmEncrypts(w, s, u, t, s.core.threads[t].payment.order, ksn, block)
    ensures SendOk(w, u, t)
  {
    hide Owns, RefusalOk, PinBlock.BuildIso0PinBlock, MockHsm.EncryptUnder, MockHsm.KsnText, MockHsm.IsMac;
  }

  /** Of a faithful request that the switch can read it reads an RRN, and the amount in full. */
  lemma FaithfulRead(r: Transport.Request, draw: nat)
    requires Faithful(r) && EntryModes.IsRrn(r.rrn) && HostSwitch.Transmit(Transport.RequestMessage(r, draw)).Some?
    ensures EntryModes.FitsButMode(r) && Transport.RrnRead(Transport.RequestMessage(r, draw)).Some?
    ensures EntryModes.BeforeModeRead(r, draw, HostSwitch.Transmit(Transport.RequestMessage(r, draw)).value)
  {
    hide HostSwitch.Transmit, Transport.RequestMessage, EntryModes.FitsButMode, EntryModes.BeforeModeRead;
    if EntryModes.FitsButMode(r) {
      EntryModes.AnyRead(r, draw);
    } else {
      EntryModes.TransmitBuilds(r, draw);
      assert false;
    }
  }

  /** A request that was answered was written, and so the switch has read an RRN of it. */
  lemma AnsweredWasRead(net: Correlation.State, t: nat, r: Transport.Request, response: Option<Correlation.Reply>)
    requires Correlation.Inv(net) && Correlation.At(net, t, Correlation.Done(Correlation.Responded(response)))
    requires Transport.Sends(net, t, r) && Faithful(r) && EntryModes.IsRrn(r.rrn)
    ensures ReadOf(net, t).Some? && ReadOf(net, t) == Transport.RrnRead(Transport.RequestMessage(r, net.calls[t].draw))
  {
    hide Correlation.Inv, Transport.AuthorizeFields, Faithful, Correlation.Stan, Correlation.AnswersOwn,
         HostSwitch.Transmit, HostSwitch.Answerable, EntryModes.IsRrn, Transport.RrnRead, EntryModes.BeforeModeRead,
         EntryModes.FitsButMode;
    Correlation.InvResponseIsOwn(net, t, response);
    assert Correlation.Outgoing(net.calls[t]) == Transport.RequestMessage(r, net.calls[t].draw);
    FaithfulRead(r, net.calls[t].draw);
  }

  lemma FinishAuth(w: World, s: State, t: nat, auth: Transport.AuthorizationResult)
    requires Correlation.Inv(s.net) && Payments.At(s.core, t, Sent) && SendOk(w, s, t) && Finished(s.net, t)
    requires s.core.threads[t].rrn.Some?
    requires Some(auth) == Transport.Interpret(s.net.calls[t].pc.result, s.core.threads[t].rrn.value)
    ensures AuthOk(s, t, auth)
  {
    hide Correlation.Inv, EncryptedOk, IsGenerated, AuthorizeRequest, Faithful, Transport.AuthorizeFields, ReadOf,
         Transport.AnsweredWith, Transport.RrnRead, Transport.Interpret, EntryModes.IsRrn;
    var th := s.core.threads[t];
    var r := AuthorizeRequest(th.payment, th.rrn.value);
    GeneratedIsRrn(th.rrn.value);
    RequestRrn(th.payment, th.rrn.value);
    Transport.OutcomeIsOwn(s.net, t, r, s.net.calls[t].pc.result);
    match s.net.calls[t].pc.result
    case Responded(response) => AnsweredWasRead(s.net, t, r, response);
    case _ =>
  }

  lemma RequestRrn(p: Payment, rrn: string)
    ensures AuthorizeRequest(p, rrn).rrn == rrn
  {
  }

  lemma FinishSend(w: World, s: State, u: State, t: nat, auth: Option<Transport.AuthorizationResult>)
    requires Correlation.Inv(s.net) && Payments.At(s.core, t, Sent) && SendOk(w, s, t)
    requires u.core == Payments.Finish(s.core, t, auth) && CallEnds(s, u, t, auth)
    ensures SendOk(w, u, t)
  {
    hide Correlation.Inv, EncryptedOk, IsGenerated, Faithful, ReadOf, AuthorizeRequest, Transport.Sound, Transport.Sends,
         Transport.AnsweredWith, Transport.Interpret;
    if auth.Some? {
      FinishAuth(w, s, t, auth.value);
    }
  }

  // ----- posting

  lemma QuietReport(s: State, u: State, t: nat, now: int)
    requires CanPost(s.core, t) && !s.core.threads[t].pc.auth.outcome.Approved? && AuthOk(s, t, s.core.threads[t].pc.auth)
    requires u.core == Payments.Post(s.core, t, now) && u.net == s.net
    ensures t in u.core.threads && u.core.threads[t].pc.Posted? && ReportOk(u, t, u.core.threads[t].pc.body)
  {
    hide Transport.AnsweredWith, Ledger.Record;
    var code := s.core.threads[t].pc.auth.responseCode;
    assert s.core.threads[t].pc.auth.outcome.Declined? ==> code != "00" && Transport.AnsweredWith(u.net, t, code);
  }

  lemma QuietPostSend(w: World, s: State, u: State, t: nat, now: int)
    requires CanPost(s.core, t) && !s.core.threads[t].pc.auth.outcome.Approved? && SendOk(w, s, t)
    requires u.core == Payments.Post(s.core, t, now) && u.net == s.net
    ensures SendOk(w, u, t)
  {
    hide EncryptedOk, IsGenerated, AuthorizeRequest, Transport.Sends, AuthOk, ReportOk, Ledger.Record;
    QuietReport(s, u, t, now);
  }

  lemma QuietPostLedger(s: Payments.State, t: nat, now: int)
    requires CanPost(s, t) && !s.threads[t].pc.auth.outcome.Approved?
    ensures Payments.Post(s, t, now).ledger == s.ledger
  {
  }

  /** What recording does: with its RRN not yet in the ledger it posts, or the database refuses an unknown account. */
  lemma Recording(w: World, s: State, u: State, t: nat, now: int)
    requires CanRecord(s.core, t) && SendOk(w, s, t) && RiskGate.InvBooks(w, s.core)
    requires u.core == Payments.Post(s.core, t, now)
    ensures ReadOf(s.net, t).Some? && Unposted(s, t) && Transport.AnsweredWith(s.net, t, "00")
    ensures var th, rrn := s.core.threads[t], ReadOf(s.net, t).value;
            && ConfirmedRrn(th) == rrn
            && (u.core.ledger == s.core.ledger || IsPosted(s, u, th, rrn, now))
            && (u.core.threads[t].pc.Posted? <==> IsPosted(s, u, th, rrn, now))
  {
    hide EncryptedOk, IsGenerated, Faithful, ReadOf, AuthorizeRequest, Transport.Sends, Transport.AnsweredWith,
         Ledger.EntriesOf, Ledger.Valid;
    var th := s.core.threads[t];
    if u.core.threads[t].pc.Posted? {
      var p := th.payment;
      Ledger.RecordPosts(s.core.ledger, ConfirmedRrn(th), p.sender, p.recipient, p.order.amountCents, now);
    }
  }

  /** The ledger has gained the thread's posting under this RRN, and nothing else has changed. */
  ghost predicate IsPosted(s: State, u: State, th: Thread, rrn: string, now: int) {
    var p := th.payment;
    && u.core.ledger.transactions == s.core.ledger.transactions[rrn := Ledger.Transaction(p.order.amountCents, now)]
    && Ledger.EntriesOf(u.core.ledger.entries, rrn) == Ledger.Posting(rrn, p.sender, p.recipient, p.order.amountCents)
    && (forall r | r != rrn ::
          Ledger.EntriesOf(u.core.ledger.entries, r) == Ledger.EntriesOf(s.core.ledger.entries, r))
    && rrn in u.core.ledger.transactions && rrn !in s.core.ledger.transactions
  }

  lemma RecordSend(w: World, s: State, u: State, t: nat, now: int)
    requires CanRecord(s.core, t) && SendOk(w, s, t)
    requires u.core == Payments.Post(s.core, t, now) && u.net == s.net
    requires u.core.threads[t].pc.Posted? ==> !Unposted(u, t)
    ensures SendOk(w, u, t)
  {
    hide EncryptedOk, IsGenerated, Faithful, ReadOf, AuthorizeRequest, Transport.Sends, Transport.AnsweredWith,
         DeclinedBySwitch, Ledger.Record;
  }

  lemma RecordAlone(s: State, u: State, t: nat, rrn: string, now: int)
    requires InvNet(s) && t in s.core.threads && ReadOf(s.net, t) == Some(rrn) && u.net == s.net
    requires t in u.core.threads && u.core.threads == s.core.threads[t := u.core.threads[t]]
    requires u.core.ledger == s.core.ledger || IsPosted(s, u, s.core.threads[t], rrn, now)
    ensures Alone(s, u, t)
  {
    hide Correlation.Inv, Correlation.Extends, Ledger.EntriesOf, Ledger.Posting, ReadOf;
    SelfExtends(s.net);
  }

  lemma RecordPosted(s: State, u: State, t: nat, rrn: string, now: int)
    requires InvPosted(s) && HasSent(s.core, t) && SendersRemain(s.core, u.core) && u.net == s.net
    requires ReadOf(s.net, t) == Some(rrn)
    requires Transport.AnsweredWith(s.net, t, "00") && IsPosted(s, u, s.core.threads[t], rrn, now)
    ensures InvPosted(u)
  {
    hide Transport.AnsweredWith, Ledger.EntriesOf, Ledger.Posting, ReadOf;
    forall r | r in u.core.ledger.transactions
      ensures exists p :: IsPoster(u, r, p)
    {
      if r == rrn {
        assert IsPoster(u, r, t);
      } else {
        var p :| IsPoster(s, r, p);
        assert IsPoster(u, r, p);
      }
    }
  }

  lemma PostKeeps(w: World, s: State, u: State, t: nat, now: int)
    requires Inv(w, s) && Payments.Step(w, s.core, Posts(t, now), u.core) && u.net == s.net
    ensures InvSends(w, u) && InvNet(u) && InvPosted(u)
  {
    hide Payments.Inv, RiskGate.InvBooks, InvSends, InvNet, InvPosted, SameSenders, SendersRemain, Alone, SendOk,
         ThreadOk, Correlation.Extends, Payments.Post, IsPosted, Unposted, ReadOf, Transport.AnsweredWith;
    CoreThreadOk(w, s, t);
    Payments.SendersStay(w, s.core, Posts(t, now), u.core);
    SameSendersRemain(s.core, u.core);
    SelfExtends(s.net);
    NetKept(s, u);
    if CanRecord(s.core, t) {
      Recording(w, s, u, t, now);
      var rrn := ReadOf(s.net, t).value;
      PostedIsThere(s, u, t, now);
      RecordSend(w, s, u, t, now);
      RecordAlone(s, u, t, rrn, now);
      if IsPosted(s, u, s.core.threads[t], rrn, now) {
        RecordPosted(s, u, t, rrn, now);
      } else {
        PostedKept(s, u);
      }
    } else {
      QuietPostLedger(s.core, t, now);
      QuietPostSend(w, s, u, t, now);
      AloneIfSame(s, u, t);
      PostedKept(s, u);
    }
    SendsOfParts(w, s, u, t);
  }

  lemma PostedIsThere(s: State, u: State, t: nat, now: int)
    requires ReadOf(s.net, t).Some? && u.net == s.net && t in s.core.threads
    ensures IsPosted(s, u, s.core.threads[t], ReadOf(s.net, t).value, now) ==> !Unposted(u, t)
  {
    hide Ledger.EntriesOf, Ledger.Posting, ReadOf;
  }

  // ----- sending

  lemma CallStartsGrows(s: State, u: State, t: nat, rrn: string)
    requires Correlation.Inv(s.net) && t in s.core.threads && CallStarts(s, u, t, rrn)
    ensures Correlation.Inv(u.net) && Correlation.Extends(s.net, u.net) && u.net.calls.Keys == s.net.calls.Keys + {t}
  {
    hide Correlation.Inv, Correlation.Extends, SendFields, Correlation.StartCall, Unread, IsGenerated, Faithful, ReadOf;
    var fields := SendFields(s.core, t, rrn);
    Correlation.StartCallKeeps(s.net, t, "0200", fields);
    Correlation.StepExtends(s.net, Correlation.Starts(t, "0200", fields), u.net);
  }

  lemma SendSend(w: World, s: State, u: State, t: nat, rrn: string)
    requires Payments.At(s.core, t, Encrypted) && SendOk(w, s, t)
    requires u.core == Payments.Send(s.core, t, rrn) && CallStarts(s, u, t, rrn)
    requires Unposted(u, t) && ReadOf(u.net, t) != Some("")
    ensures SendOk(w, u, t)
  {
    hide EncryptedOk, IsGenerated, Unread, Faithful, ReadOf, Transport.AuthorizeFields, AuthorizeRequest;
  }

  lemma SendAlone(s: State, u: State, t: nat, rrn: string)
    requires Payments.At(s.core, t, Encrypted) && u.core == Payments.Send(s.core, t, rrn)
    requires Correlation.Extends(s.net, u.net)
    ensures Alone(s, u, t) && u.core.ledger == s.core.ledger && t in u.core.threads
  {
    hide Correlation.Extends, ReadOf;
  }

  lemma SendRemain(s: Payments.State, t: nat, rrn: string)
    requires Payments.At(s, t, Encrypted) && !HasSent(s, t)
    ensures SendersRemain(s, Payments.Send(s, t, rrn))
    ensures forall e :: HasSent(Payments.Send(s, t, rrn), e) <==> HasSent(s, e) || e == t
    ensures Payments.Send(s, t, rrn).threads[t].rrn == Some(rrn)
  {
  }

  lemma SendNet(s: State, u: State, t: nat, rrn: string)
    requires InvNet(s) && Payments.At(s.core, t, Encrypted) && !HasSent(s.core, t)
    requires u.core == Payments.Send(s.core, t, rrn) && CallStarts(s, u, t, rrn)
    ensures InvNet(u)
  {
    hide Correlation.Inv, Correlation.StartCall, Correlation.Extends, SendFields, Faithful, IsGenerated, ReadOf;
    CallStartsGrows(s, u, t, rrn);
    SendRemain(s.core, t, rrn);
    ReadsKept(s.net, u.net);
    OnlyCallsRead(u.net);
  }

  lemma ReadsKept(s: Correlation.State, u: Correlation.State)
    requires Correlation.Extends(s, u)
    ensures forall e | e in s.calls :: ReadOf(u, e) == ReadOf(s, e)
  {
    hide Transport.RrnRead, Correlation.Stan;
  }

  lemma OnlyCallsRead(net: Correlation.State)
    ensures forall e | ReadOf(net, e).Some? :: e in net.calls
  {
    hide Transport.RrnRead, Correlation.Stan;
  }

  lemma NotPosted(s: State, u: State, t: nat)
    requires InvPosted(s) && (ReadOf(u.net, t).Some? ==> Unread(s.net, ReadOf(u.net, t).value))
    requires u.core.ledger == s.core.ledger
    ensures Unposted(u, t) && ReadOf(u.net, t) != Some("")
  {
    hide Transport.AnsweredWith, Ledger.EntriesOf, ReadOf;
    forall r | r in s.core.ledger.transactions
      ensures ReadOf(u.net, t) != Some(r)
    {
      var p :| IsPoster(s, r, p);
    }
  }

  /** A thread about to send has not sent before: neither it nor its key is known to anyone yet. */
  lemma SendIsFirst(w: World, s: State, t: nat)
    requires Inv(w, s) && Payments.At(s.core, t, Encrypted)
    ensures t !in s.net.calls && KeyOf(s.core.threads[t]) !in s.core.authorizeLog
  {
    hide ThreadOk, RiskGate.InvBooks, InvSends, InvPosted, Correlation.Inv, InvKeys, Wins, NoneTwice;
    Payments.ThreadIsOk(w, s.core, t);
    Payments.NotYetSent(w, s.core, t);
    Payments.WinnerIs(w, s.core, t);
    Payments.SendLogs(s.core, t, "");
  }

  lemma SendKeeps(w: World, s: State, u: State, t: nat, rrn: string)
    requires Inv(w, s) && Payments.At(s.core, t, Encrypted)
    requires u.core == Payments.Send(s.core, t, rrn) && CallStarts(s, u, t, rrn)
    ensures InvSends(w, u) && InvNet(u) && InvPosted(u)
  {
    hide Payments.Inv, RiskGate.InvBooks, InvSends, InvPosted, SendersRemain, Alone, SendOk, ThreadOk, Correlation.Inv,
         Correlation.Extends, Correlation.StartCall, SendFields, Faithful, IsGenerated, Unread, ReadOf, Unposted,
         Payments.Send;
    CoreThreadOk(w, s, t);
    Payments.NotYetSent(w, s.core, t);
    CallStartsGrows(s, u, t, rrn);
    SendRemain(s.core, t, rrn);
    SendAlone(s, u, t, rrn);
    SendNet(s, u, t, rrn);
    NotPosted(s, u, t);
    SendSend(w, s, u, t, rrn);
    SendsOfParts(w, s, u, t);
    PostedKept(s, u);
  }

  // ----- the network

  lemma NetworkGrows(s: State, a: Correlation.Action, net: Correlation.State)
    requires Correlation.Inv(s.net) && CanTravel(s, a, net)
    ensures Correlation.Inv(net) && Correlation.Extends(s.net, net) && net.calls.Keys == s.net.calls.Keys
  {
    hide Correlation.Inv, Correlation.Step, Correlation.StanWindow, Correlation.Extends;
    Correlation.StepKeeps(s.net, a, net);
    Correlation.StepExtends(s.net, a, net);
  }

  lemma TravelNet(s: State, net: Correlation.State)
    requires InvNet(s) && Correlation.Inv(net) && net.calls.Keys == s.net.calls.Keys
    requires Correlation.Extends(s.net, net)
    ensures InvNet(s.(net := net))
  {
    hide Correlation.Inv, Correlation.Extends, ReadOf;
    ReadsKept(s.net, net);
    OnlyCallsRead(net);
  }

  lemma TravelKeeps(w: World, s: State, a: Correlation.Action, net: Correlation.State)
    requires Inv(w, s) && CanTravel(s, a, net)
    ensures Inv(w, s.(net := net))
  {
    hide CanTravel, Payments.Inv, RiskGate.InvBooks, SendOk, InvPosted, Correlation.Extends, Correlation.Inv, ReadOf,
         Serials.Inv;
    var u := s.(net := net);
    NetworkGrows(s, a, net);
    TravelNet(s, net);
    forall e | e in u.core.threads
      ensures SendOk(w, u, e)
    {
      UnmovedKept(w, s, u, e);
    }
    PostedKept(s, u);
  }

  // ----- every step

  /** A payment step that neither sends nor posts leaves its thread in order. */
  lemma PlainSend(w: World, s: State, b: Payments.Action, u: State)
    requires Inv(w, s) && Payments.Step(w, s.core, b, u.core) && Around(w, s, b, u) && !b.Sends? && !b.Posts?
    ensures (b.t in u.core.threads ==> SendOk(w, u, b.t)) && u.net == s.net
  {
    hide Inv, ThreadOk, SendOk, Correlation.Inv, Payments.Arrive, Payments.Claim, Payments.Check, Payments.Assess,
         Payments.Encrypt, Payments.Send, Payments.Finish, Payments.Post, Payments.StoreResponse, Payments.Crash,
         MockHsm.IsMac, HsmBlock, MockHsm.KsnText, Transport.Interpret, Transport.Sound, AuthorizeRequest, CallStarts;
    if !b.Arrives? {
      CoreThreadOk(w, s, b.t);
    }
    match b {
      case Arrives(t, order) => ArriveSend(w, s, u, t, order);
      case Claims(t) => ClaimSend(w, s, u, t);
      case Checks(t) => CheckSend(w, s, u, t);
      case Assesses(t, time) => AssessSend(w, s, u, t, time);
      case Encrypts(t, ksn, block) => EncryptSend(w, s, u, t, ksn, block);
      case Finishes(t, auth) =>
        NetIsOk(w, s);
        FinishSend(w, s, u, t, auth);
      case Stores(t) => StoreSend(w, s, u, t);
      case Crashes(t) => CrashSend(w, s, u, t);
    }
  }

  lemma NetIsOk(w: World, s: State)
    requires Inv(w, s)
    ensures Correlation.Inv(s.net)
  {
    hide Correlation.Inv, Payments.Inv, RiskGate.InvBooks, InvSends, InvPosted;
  }

  lemma PayKeeps(w: World, s: State, b: Payments.Action, u: State)
    requires Inv(w, s) && Payments.Step(w, s.core, b, u.core) && Around(w, s, b, u)
    ensures InvSends(w, u) && InvNet(u) && InvPosted(u)
  {
    hide Inv, InvSends, InvNet, InvPosted, SendOk, CallStarts, CallEnds, HsmEncrypts, Payments.Arrive, Payments.Claim,
         Payments.Check, Payments.Assess, Payments.Encrypt, Payments.Send, Payments.Finish, Payments.Post,
         Payments.StoreResponse, Payments.Crash;
    if b.Sends? {
      SendKeeps(w, s, u, b.t, b.rrn);
    } else if b.Posts? {
      PostKeeps(w, s, u, b.t, b.now);
    } else {
      PlainSend(w, s, b, u);
      PlainKeeps(w, s, b, u);
    }
  }

  lemma StepKeeps(w: World, s: State, a: Action, u: State)
    requires Inv(w, s) && Step(w, s, a, u)
    ensures Inv(w, u)
  {
    hide Payments.Inv, RiskGate.InvBooks, InvSends, InvNet, InvPosted, Payments.Step, Around, CanTravel, Serials.Inv;
    match a
    case Pays(b) =>
      Payments.StepKeeps(w, s.core, b, u.core);
      RiskGate.StepKeepsBooks(w, s.core, b, u.core);
      PayKeeps(w, s, b, u);
      SerialsKept(w, s, b, u);
    case Travels(b) => TravelKeeps(w, s, b, u.net);
    case Draws(d) => DrawKeeps(w, s, d, u.hsm);
  }

  lemma SerialsKept(w: World, s: State, b: Payments.Action, u: State)
    requires Payments.Step(w, s.core, b, u.core) && Around(w, s, b, u)
    ensures u.hsm == s.hsm
  {
    hide Payments.Step, Faithful, IsGenerated, Unread, ReadOf, SendFields, Transport.Interpret, Transport.Sound, HsmBlock,
         MockHsm.IsMac, MockHsm.KsnText;
  }

  lemma DrawKeeps(w: World, s: State, d: Serials.Action, hsm: Serials.State)
    requires Inv(w, s) && CanDraw(s, d, hsm)
    ensures Inv(w, s.(hsm := hsm))
  {
    hide Payments.Inv, RiskGate.InvBooks, SendOk, InvPosted, Correlation.Extends, Correlation.Inv, ReadOf,
         Serials.Inv, Serials.Step;
    var u := s.(hsm := hsm);
    Serials.StepKeeps(s.hsm, d, hsm);
    SelfExtends(s.net);
    forall e | e in u.core.threads
      ensures SendOk(w, u, e)
    {
      UnmovedKept(w, s, u, e);
    }
    PostedKept(s, u);
  }

  lemma BeginOk(w: World)
    ensures Inv(w, Begin(w))
  {
    hide Correlation.Inv, Payments.Inv, RiskGate.InvBooks, Serials.Inv, Transport.RrnRead;
    Serials.InitOk();
    Correlation.InitOk(w.fileLogged);
    Payments.StartOk(w);
    RiskGate.StartOk(w);
  }

  lemma {:induction false} RunKeeps(w: World, states: seq<State>, actions: seq<Action>, i: nat)
    requires IsRun(w, states, actions) && i <= |actions|
    ensures Inv(w, states[i])
  {
    hide Inv, Step;
    if i == 0 {
      BeginOk(w);
    } else {
      RunKeeps(w, states, actions, i - 1);
      assert IsStep(w, states, actions, i - 1);
      StepKeeps(w, states[i - 1], actions[i - 1], states[i]);
    }
  }

  lemma ReachableKeeps(w: World, s: State)
    requires Reachable(w, s)
    ensures Inv(w, s) && Payments.Reachable(w, s.core)
  {
    hide Inv, Step, Payments.Reachable;
    var states, actions :| IsRun(w, states, actions) && states[|actions|] == s;
    RunKeeps(w, states, actions, |actions|);
    CoreReachable(w, states, actions, |actions|);
  }
}
