/**
  Payments come to an end: for every order in good standing there is a run, of the call, the HSM, the network and the
  switch, in which it is answered, and then approved and posted, or declined, as the switch says.
 */
module Completion {
  import opened Wrappers
  import opened Text
  import opened Payments
  import Bytes
  import Codec
  import Correlation
  import EntryModes
  import HostSwitch
  import Idempotency
  import Ledger
  import MockHsm
  import PinBlock
  import Risk
  import Saga
  import Serials
  import Transport
  import Velocity

  /** Known parties, the payer the caller's own; within every limit as a first attempt; values that fit the message. */
  ghost predicate InGoodStanding(w: World, o: Order, payer: string, payee: string) {
    var cards, owners := w.directory.cards, w.directory.owners;
    var to := if o.kind.Transfer? then o.creditTo else "merchant:demo";
    && MockHsm.IsMac(w.mac)
    && payer == (if o.cardNumber in cards then cards[o.cardNumber] else o.cardNumber)
    && payee == (if to in cards then cards[to] else to)
    && payer != "" && payee != "" && payer in owners && payee in owners && owners[payer] == o.userId
    && 0.0 <= w.config.window && 1 <= w.config.velocityReview && 1 <= w.config.velocityDecline
    && o.amountCents <= w.config.amountReview && o.amountCents <= w.config.amountDecline
    && (o.amountCents > w.config.manualReview ==> o.kind.Purchase? && o.entryMode != "01")
    && |o.pin| <= 14 && AllDigits(o.pin) && |o.cardNumber| <= 99 && AllDigits(o.cardNumber)
    && o.amountCents < 1_000_000_000_000
    && (o.kind.Purchase? ==> |o.entryMode| <= 3 && AllDigits(o.entryMode))
    && (o.kind.Transfer? ==> |payee| <= 99 && Latin1(payee))
  }

  /** Thread 0 stands alone, and the books are empty. */
  predicate StandsAlone(w: World, core: Payments.State, th: Thread, claimed: bool) {
    var o := th.payment.order;
    && core.threads == map[0 := th]
    && core.ledger == Ledger.Tables(w.directory.owners.Keys, map[], [])
    && core.store == (if claimed then map[o.idempotencyKey := Idempotency.Claimed(o.requestHash, None)] else map[])
  }

  ghost predicate Stands(w: World, s: Saga.State, th: Thread, claimed: bool) {
    Saga.Reachable(w, s) && StandsAlone(w, s.core, th, claimed)
  }

  /** No message has been sent and no serial number drawn. */
  predicate Still(w: World, s: Saga.State) {
    s.net == Correlation.Init(w.fileLogged) && s.hsm == Serials.Init()
  }

  function Asked(o: Order, payer: string, payee: string, ksn: string, block: seq<Bytes.byte>): Payment {
    Payment(o, payer, payee, ksn, block)
  }

  lemma Pays(w: World, s: Saga.State, b: Payments.Action, u: Saga.State)
    requires Saga.Reachable(w, s) && Payments.Step(w, s.core, b, u.core) && Saga.Around(w, s, b, u)
    ensures Saga.Reachable(w, u)
  {
    hide Saga.Reachable, Payments.Step, Saga.Around;
    Saga.OneMore(w, s, Saga.Pays(b), u);
  }

  lemma BeginReachable(w: World)
    ensures Saga.Reachable(w, Saga.Begin(w))
  {
    hide Saga.Begin;
    assert Saga.IsRun(w, [Saga.Begin(w)], []);
  }

  lemma Arrived(w: World, o: Order) returns (u: Saga.State)
    ensures Stands(w, u, Thread(Asked(o, "", "", "", []), Payments.Arrived, false, None, None), false) && Still(w, u)
    ensures u.core.attempts == map[] && u.core.evaluations == map[]
  {
    hide Saga.Reachable;
    BeginReachable(w);
    var s := Saga.Begin(w);
    u := s.(core := Payments.Arrive(s.core, 0, o));
    Pays(w, s, Arrives(0, o), u);
  }

  lemma Claimed(w: World, s: Saga.State, o: Order) returns (u: Saga.State)
    requires Stands(w, s, Thread(Asked(o, "", "", "", []), Payments.Arrived, false, None, None), false) && Still(w, s)
    requires s.core.attempts == map[] && s.core.evaluations == map[]
    ensures Stands(w, u, Thread(Asked(o, "", "", "", []), Payments.Claimed, true, None, None), true) && Still(w, u)
    ensures u.core.attempts == map[] && u.core.evaluations == map[]
  {
    hide Saga.Reachable;
    u := s.(core := Payments.Claim(s.core, 0));
    Pays(w, s, Claims(0), u);
  }

  lemma CheckPasses(w: World, core: Payments.State, o: Order, payer: string, payee: string)
    requires StandsAlone(w, core, Thread(Asked(o, "", "", "", []), Payments.Claimed, true, None, None), true)
    requires InGoodStanding(w, o, payer, payee)
    ensures Payments.Step(w, core, Checks(0), Payments.Check(w, core, 0))
    ensures var u := Payments.Check(w, core, 0);
            && StandsAlone(w, u, Thread(Asked(o, payer, payee, "", []), Payments.Checked, true, None, None), true)
            && u.attempts == core.attempts && u.evaluations == core.evaluations
  {
    hide MockHsm.IsMac;
  }

  lemma Checked(w: World, s: Saga.State, o: Order, payer: string, payee: string) returns (u: Saga.State)
    requires Stands(w, s, Thread(Asked(o, "", "", "", []), Payments.Claimed, true, None, None), true) && Still(w, s)
    requires InGoodStanding(w, o, payer, payee) && s.core.attempts == map[] && s.core.evaluations == map[]
    ensures Stands(w, u, Thread(Asked(o, payer, payee, "", []), Payments.Checked, true, None, None), true) && Still(w, u)
    ensures u.core.attempts == map[] && u.core.evaluations == map[]
  {
    hide Saga.Reachable, InGoodStanding, Payments.Check;
    CheckPasses(w, s.core, o, payer, payee);
    u := s.(core := Payments.Check(w, s.core, 0));
    Pays(w, s, Checks(0), u);
  }

  lemma FirstEvaluation(w: World, s: Payments.State, o: Order, payer: string, payee: string, now: real)
    requires InGoodStanding(w, o, payer, payee) && s.attempts == map[]
    ensures Payments.Evaluate(w, s, o, now).verdict == Risk.Approve
  {
    hide MockHsm.IsMac, Risk.Worst, Risk.Triggered, Risk.Min;
    Velocity.RecentOfMore([], now, now - w.config.window);
    assert Velocity.Recent([], now - w.config.window) == [];
    assert [] + [now] == [now];
    Risk.ApprovedExact(w.config, 1, o.amountCents, EntryMode(o));
    MinIsBoth(1, w.config.velocityDecline, w.config.velocityReview);
    MinIsBoth(o.amountCents, w.config.amountDecline, w.config.amountReview);
  }

  lemma MinIsBoth(n: nat, a: nat, b: nat)
    ensures n <= Risk.Min(a, b) <==> n <= a && n <= b
  {
  }

  lemma AssessPasses(w: World, core: Payments.State, o: Order, payer: string, payee: string, now: real)
    requires StandsAlone(w, core, Thread(Asked(o, payer, payee, "", []), Payments.Checked, true, None, None), true)
    requires InGoodStanding(w, o, payer, payee) && core.attempts == map[] && core.evaluations == map[]
    ensures Payments.Step(w, core, Assesses(0, now), Payments.Assess(w, core, 0, now))
    ensures StandsAlone(
              w, Payments.Assess(w, core, 0, now),
              Thread(Asked(o, payer, payee, "", []), Payments.Cleared, true, Some(0), None), true)
  {
    hide InGoodStanding, Payments.Evaluate, Payments.KeptNow;
    FirstEvaluation(w, core, o, payer, payee, now);
  }

  lemma Cleared(w: World, s: Saga.State, o: Order, payer: string, payee: string, now: real) returns (u: Saga.State)
    requires Stands(w, s, Thread(Asked(o, payer, payee, "", []), Payments.Checked, true, None, None), true) && Still(w, s)
    requires InGoodStanding(w, o, payer, payee) && s.core.attempts == map[] && s.core.evaluations == map[]
    ensures Stands(w, u, Thread(Asked(o, payer, payee, "", []), Payments.Cleared, true, Some(0), None), true)
    ensures Still(w, u)
  {
    hide Saga.Reachable, InGoodStanding, Payments.Assess;
    AssessPasses(w, s.core, o, payer, payee, now);
    u := s.(core := Payments.Assess(w, s.core, 0, now));
    Pays(w, s, Assesses(0, now), u);
  }

  lemma DrawsOne(w: World, s: Saga.State, d: Serials.Action, hsm: Serials.State)
    requires Saga.Reachable(w, s) && Payments.At(s.core, d.c, Payments.Cleared) && Serials.Step(s.hsm, d, hsm)
    ensures Saga.Reachable(w, s.(hsm := hsm))
  {
    hide Saga.Reachable, Serials.Step;
    Saga.OneMore(w, s, Saga.Draws(d), s.(hsm := hsm));
  }

  /** The first serial number is number one. */
  lemma SerialDrawn(w: World, s: Saga.State, th: Thread) returns (u: Saga.State)
    requires Stands(w, s, th, true) && th.pc.Cleared? && Still(w, s)
    ensures Stands(w, u, th, true) && u.net == s.net
    ensures Serials.HasRead(u.hsm, 0) && u.hsm.draws[0].stage.value == 1
  {
    hide Saga.Reachable;
    var loaded := Serials.Load(s.hsm, 0);
    DrawsOne(w, s, Serials.Loads(0), loaded);
    var stored := Serials.Store(loaded, 0);
    DrawsOne(w, s.(hsm := loaded), Serials.Stores(0), stored);
    var read := Serials.ReadBack(stored, 0);
    DrawsOne(w, s.(hsm := stored), Serials.Reads(0), read);
    u := s.(hsm := read);
  }

  lemma Encrypted(w: World, s: Saga.State, o: Order, payer: string, payee: string)
    returns (u: Saga.State, block: seq<Bytes.byte>)
    requires Stands(w, s, Thread(Asked(o, payer, payee, "", []), Payments.Cleared, true, Some(0), None), true)
    requires s.net == Correlation.Init(w.fileLogged)
    requires Serials.HasRead(s.hsm, 0) && s.hsm.draws[0].stage.value == 1
    requires InGoodStanding(w, o, payer, payee)
    ensures Stands(
              w, u, Thread(Asked(o, payer, payee, "0000000001", block), Payments.Encrypted, true, Some(0), None), true)
    ensures u.net == s.net
  {
    hide Saga.Reachable, MockHsm.IsMac, Saga.HsmBlock, MockHsm.KsnText, Payments.Encrypt, PinBlock.BuildIso0PinBlock,
         InGoodStanding;
    MacIsMac(w, o, payer, payee);
    FirstSerial();
    BlockIsBuilt(w, o, payer, payee);
    block := Saga.HsmBlock(w, o, "0000000001").value;
    EncryptPasses(w, s.core, o, payer, payee, block);
    u := s.(core := Payments.Encrypt(s.core, 0, "0000000001", Some(block)));
    Pays(w, s, Encrypts(0, "0000000001", Some(block)), u);
  }

  lemma BlockIsBuilt(w: World, o: Order, payer: string, payee: string)
    requires InGoodStanding(w, o, payer, payee)
    ensures Saga.HsmBlock(w, o, "0000000001").Some?
  {
    hide MockHsm.IsMac, PinBlock.BuildIso0PinBlock, MockHsm.EncryptUnder;
    MockHsm.DecryptedPin(w.mac, "0000000001", o.pin, o.cardNumber);
  }

  lemma MacIsMac(w: World, o: Order, payer: string, payee: string)
    requires InGoodStanding(w, o, payer, payee)
    ensures MockHsm.IsMac(w.mac)
  {
    hide MockHsm.IsMac;
  }

  lemma EncryptPasses(w: World, core: Payments.State, o: Order, payer: string, payee: string, block: seq<Bytes.byte>)
    requires StandsAlone(w, core, Thread(Asked(o, payer, payee, "", []), Payments.Cleared, true, Some(0), None), true)
    ensures var u := Payments.Encrypt(core, 0, "0000000001", Some(block));
            && Payments.Step(w, core, Encrypts(0, "0000000001", Some(block)), u)
            && StandsAlone(
                 w, u,
                 Thread(Asked(o, payer, payee, "0000000001", block), Payments.Encrypted, true, Some(0), None), true)
  {
  }

  lemma FirstSerial()
    ensures MockHsm.KsnText(1) == "0000000001"
  {
  }

  // ----- the request

  function RequestOf(o: Order, payer: string, payee: string, block: seq<Bytes.byte>, rrn: string): Transport.Request {
    Saga.AuthorizeRequest(Asked(o, payer, payee, "0000000001", block), rrn)
  }

  lemma RequestFits(w: World, o: Order, payer: string, payee: string, block: seq<Bytes.byte>, rrn: string)
    requires InGoodStanding(w, o, payer, payee) && EntryModes.IsRrn(rrn)
    ensures var r := RequestOf(o, payer, payee, block, rrn);
            Transport.Sound(r) && r.rrn == rrn && |rrn| == 12 && !IsSpace(rrn[11])
  {
    hide MockHsm.IsMac, Padded;
    Transport.AmountFitsExact(o.amountCents);
    assert IsDigit(rrn[11]);
  }

  lemma NothingRead(fileLogged: bool)
    ensures forall t :: Saga.ReadOf(Correlation.Init(fileLogged), t) == None
  {
  }

  lemma FirstReads(w: World, r: Transport.Request)
    requires Transport.Sound(r) && EntryModes.IsRrn(r.rrn)
    ensures Saga.ReadOf(Transport.FirstDrawn(r, w.fileLogged), 0) == Some(r.rrn)
  {
    hide Transport.Sound, Transport.AuthorizeFields, Transport.RrnRead, Correlation.Stan;
    assert IsDigit(r.rrn[11]);
    Transport.SoundRrnRead(r, 1);
    Transport.FirstDrawnIs(r, w.fileLogged);
    assert Correlation.Outgoing(Transport.FirstDrawn(r, w.fileLogged).calls[0]) == Transport.RequestMessage(r, 1);
  }

  lemma Sent(
      w: World, s: Saga.State, o: Order, payer: string, payee: string, block: seq<Bytes.byte>, rrn: string)
    returns (u: Saga.State)
    requires Stands(
               w, s, Thread(Asked(o, payer, payee, "0000000001", block), Payments.Encrypted, true, Some(0), None), true)
    requires s.net == Correlation.Init(w.fileLogged) && Saga.IsGenerated(rrn)
    requires InGoodStanding(w, o, payer, payee)
    ensures Stands(
              w, u, Thread(Asked(o, payer, payee, "0000000001", block), Payments.Sent, true, Some(0), Some(rrn)), true)
    ensures u.net == Transport.FirstDrawn(RequestOf(o, payer, payee, block, rrn), w.fileLogged)
  {
    hide Saga.Reachable, Saga.IsGenerated, Saga.AuthorizeRequest, Transport.AuthorizeFields, Transport.Sound, Saga.ReadOf,
         InGoodStanding, Correlation.StartCall, EntryModes.IsRrn;
    Saga.GeneratedIsRrn(rrn);
    RequestFits(w, o, payer, payee, block, rrn);
    var r := RequestOf(o, payer, payee, block, rrn);
    NothingRead(w.fileLogged);
    FirstReads(w, r);
    IsNotEmpty(rrn);
    u := s.(core := Payments.Send(s.core, 0, rrn), net := Transport.FirstDrawn(r, w.fileLogged));
    Pays(w, s, Sends(0, rrn), u);
  }

  lemma IsNotEmpty(rrn: string)
    requires EntryModes.IsRrn(rrn)
    ensures rrn != ""
  {
  }

  // ----- the answer

  function Outcome(code: string, rrn: string): Transport.AuthorizationResult {
    Transport.AuthorizationResult(
      if code == "00" then Transport.Approved else Transport.Declined, code, Some("A18008"), Some("000001"), rrn, false)
  }

  lemma FinishPasses(
      w: World, core: Payments.State, p: Payment, rrn: string, auth: Transport.AuthorizationResult)
    requires StandsAlone(w, core, Thread(p, Payments.Sent, true, Some(0), Some(rrn)), true)
    ensures Payments.Step(w, core, Finishes(0, Some(auth)), Payments.Finish(core, 0, Some(auth)))
    ensures StandsAlone(
              w, Payments.Finish(core, 0, Some(auth)), Thread(p, Authorized(auth), true, Some(0), Some(rrn)), true)
  {
  }

  lemma Answered(
      w: World, s: Saga.State, o: Order, payer: string, payee: string, block: seq<Bytes.byte>, rrn: string, code: string)
    returns (u: Saga.State)
    requires Stands(
               w, s, Thread(Asked(o, payer, payee, "0000000001", block), Payments.Sent, true, Some(0), Some(rrn)), true)
    requires s.net == Transport.FirstDrawn(RequestOf(o, payer, payee, block, rrn), w.fileLogged)
    requires InGoodStanding(w, o, payer, payee) && EntryModes.IsRrn(rrn) && HostSwitch.IsResponseCode(code)
    ensures Stands(
              w, u,
              Thread(
                Asked(o, payer, payee, "0000000001", block), Authorized(Outcome(code, rrn)), true, Some(0), Some(rrn)),
              true)
  {
    hide Saga.Reachable, Transport.FirstDrawn, Saga.AuthorizeRequest, Transport.Sound, InGoodStanding,
         Correlation.Leads, Correlation.Reachable, Transport.Interpret, EntryModes.IsRrn, HostSwitch.IsResponseCode,
         Payments.Finish, Transport.AnsweredWith, Transport.Sends;
    RequestFits(w, o, payer, payee, block, rrn);
    var net, response := Transport.AnswerIsTold(RequestOf(o, payer, payee, block, rrn), w.fileLogged, code);
    Saga.Travelled(w, s, net);
    var t := s.(net := net);
    FinishPasses(w, t.core, Asked(o, payer, payee, "0000000001", block), rrn, Outcome(code, rrn));
    u := t.(core := Payments.Finish(t.core, 0, Some(Outcome(code, rrn))));
    Pays(w, t, Finishes(0, Some(Outcome(code, rrn))), u);
  }

  // ----- the end

  /** What the caller is told: approved and recorded, or declined. */
  function Told(code: string, rrn: string): Body {
    if code == "00" then Body(Payments.Approved, Some(rrn), Some("A18008"), Some("000001"), Some(Ledger.Recorded))
    else Body(Payments.Declined, Some(rrn), None, Some("000001"), None)
  }

  function LedgerAfter(w: World, p: Payment, rrn: string, code: string, now: int): Ledger.Tables {
    if code == "00" then
      Ledger.Tables(
        w.directory.owners.Keys, map[rrn := Ledger.Transaction(p.order.amountCents, now)],
        [Ledger.Entry(rrn, p.sender, Ledger.Debit, p.order.amountCents),
         Ledger.Entry(rrn, p.recipient, Ledger.Credit, p.order.amountCents)])
    else Ledger.Tables(w.directory.owners.Keys, map[], [])
  }

  lemma PostPasses(w: World, core: Payments.State, p: Payment, rrn: string, code: string, now: int)
    requires StandsAlone(w, core, Thread(p, Authorized(Outcome(code, rrn)), true, Some(0), Some(rrn)), true)
    requires p.sender in w.directory.owners && p.recipient in w.directory.owners && rrn != ""
    ensures Payments.CanPost(core, 0)
    ensures var u := Payments.Post(core, 0, now);
            && Payments.Step(w, core, Posts(0, now), u)
            && u.threads == map[0 := Thread(p, Posted(Told(code, rrn)), true, Some(0), Some(rrn))]
            && u.store == core.store && u.ledger == LedgerAfter(w, p, rrn, code, now)
  {
    assert [] + [Ledger.Entry(rrn, p.sender, Ledger.Debit, p.order.amountCents),
                 Ledger.Entry(rrn, p.recipient, Ledger.Credit, p.order.amountCents)] ==
           [Ledger.Entry(rrn, p.sender, Ledger.Debit, p.order.amountCents),
            Ledger.Entry(rrn, p.recipient, Ledger.Credit, p.order.amountCents)];
  }

  lemma StorePasses(w: World, core: Payments.State, th: Thread, body: Body)
    requires core.threads == map[0 := th] && th.pc == Posted(body)
    ensures var u := Payments.StoreResponse(core, 0);
            && Payments.Step(w, core, Stores(0), u) && u.ledger == core.ledger
            && u.threads == map[0 := th.(pc := Ended(Returned(body)))]
  {
  }

  lemma Ends(w: World, s: Saga.State, p: Payment, rrn: string, code: string, now: int) returns (u: Saga.State)
    requires Stands(w, s, Thread(p, Authorized(Outcome(code, rrn)), true, Some(0), Some(rrn)), true)
    requires p.sender in w.directory.owners && p.recipient in w.directory.owners && rrn != ""
    ensures Saga.Reachable(w, u)
    ensures u.core.threads == map[0 := Thread(p, Ended(Returned(Told(code, rrn))), true, Some(0), Some(rrn))]
    ensures u.core.ledger == LedgerAfter(w, p, rrn, code, now)
  {
    hide Saga.Reachable, Told, LedgerAfter, Payments.Post, Payments.StoreResponse, Payments.CanPost;
    PostPasses(w, s.core, p, rrn, code, now);
    var posted := s.(core := Payments.Post(s.core, 0, now));
    Pays(w, s, Posts(0, now), posted);
    StorePasses(w, posted.core, posted.core.threads[0], Told(code, rrn));
    u := posted.(core := Payments.StoreResponse(posted.core, 0));
    Pays(w, posted, Stores(0), u);
  }

  /**
    Every order in good standing can be answered by the switch with any code, under any RRN the generator gives. With
    "00" the caller is told approved, and the ledger then holds one transaction of the amount, debited from the payer and
    credited to the payee; with any other code the caller is told declined and the ledger stays empty.
   */
  lemma CanBePaid(w: World, o: Order, payer: string, payee: string, rrn: string, code: string, reading: real, now: int)
    returns (s: Saga.State)
    requires InGoodStanding(w, o, payer, payee) && Saga.IsGenerated(rrn) && HostSwitch.IsResponseCode(code)
    ensures Saga.Reachable(w, s) && 0 in s.core.threads && s.core.threads[0].payment.order == o
    ensures s.core.threads[0].pc ==
            Ended(Returned(
              if code == "00"
              then Body(Payments.Approved, Some(rrn), Some("A18008"), Some("000001"), Some(Ledger.Recorded))
              else Body(Payments.Declined, Some(rrn), None, Some("000001"), None)))
    ensures s.core.ledger.transactions ==
            if code == "00" then map[rrn := Ledger.Transaction(o.amountCents, now)] else map[]
    ensures s.core.ledger.entries ==
            if code == "00" then
              [Ledger.Entry(rrn, payer, Ledger.Debit, o.amountCents),
               Ledger.Entry(rrn, payee, Ledger.Credit, o.amountCents)]
            else []
  {
    hide Stands, Saga.IsGenerated, EntryModes.IsRrn, HostSwitch.IsResponseCode, Saga.Reachable;
    Saga.GeneratedIsRrn(rrn);
    IsNotEmpty(rrn);
    var arrived := Arrived(w, o);
    var claimed := Claimed(w, arrived, o);
    var checked := Checked(w, claimed, o, payer, payee);
    var cleared := Cleared(w, checked, o, payer, payee, reading);
    var drawn := SerialDrawn(w, cleared, Thread(Asked(o, payer, payee, "", []), Payments.Cleared, true, Some(0), None));
    var encrypted, block := Encrypted(w, drawn, o, payer, payee);
    var sent := Sent(w, encrypted, o, payer, payee, block, rrn);
    var answered := Answered(w, sent, o, payer, payee, block, rrn, code);
    s := Ends(w, answered, Asked(o, payer, payee, "0000000001", block), rrn, code, now);
  }
}
