/** What callers, the ledger and the settlement file may rely on, over every run. */
module Guarantees {
  import opened Wrappers
  import opened Text
  import opened FieldCatalogue
  import opened HostSwitch
  import opened Payments
  import opened RiskGate
  import Bcd
  import Bytes
  import Codec
  import Correlation
  import Idempotency
  import Ledger
  import MockHsm
  import PinBlock
  import Reconciliation
  import Risk
  import EntryModes
  import Saga
  import Serials
  import Transport
  import Velocity

  // ----- once, whatever the transport does

  predicate SameKey(s: Payments.State, t: nat, u: nat) {
    && t in s.threads && u in s.threads
    && s.threads[t].payment.order.idempotencyKey == s.threads[u].payment.order.idempotencyKey
  }

  /** No idempotency key reaches authorize twice, none reaches record_purchase twice, and none only the latter. */
  lemma AtMostOnce(w: World, s: Payments.State)
    requires Payments.Reachable(w, s)
    ensures forall i, j | 0 <= i < j < |s.authorizeLog| :: s.authorizeLog[i] != s.authorizeLog[j]
    ensures forall i, j | 0 <= i < j < |s.recordLog| :: s.recordLog[i] != s.recordLog[j]
    ensures forall key | key in s.recordLog :: key in s.authorizeLog
    ensures forall t | t in s.threads && s.threads[t].rrn.Some? ::
              s.threads[t].payment.order.idempotencyKey in s.authorizeLog
    ensures forall t, u | SameKey(s, t, u) && s.threads[t].rrn.Some? && s.threads[u].rrn.Some? :: t == u
  {
    hide Payments.Reachable, InvKeys, PcOk, Owns, RefusalOk;
    Payments.ReachableKeeps(w, s);
    forall t | t in s.threads && s.threads[t].rrn.Some?
      ensures s.threads[t].payment.order.idempotencyKey in s.authorizeLog
    {
      assert ThreadOk(w, s, t) && HasSent(s, t);
    }
    forall t, u | SameKey(s, t, u) && s.threads[t].rrn.Some? && s.threads[u].rrn.Some?
      ensures t == u
    {
      assert ThreadOk(w, s, t) && ThreadOk(w, s, u);
    }
  }

  /** All calls that get a body for one key get the same body, and have sent the same request. */
  lemma SameBody(w: World, s: Payments.State, t: nat, u: nat, mine: Body, yours: Body)
    requires Payments.Reachable(w, s)
    requires Payments.At(s, t, Ended(Returned(mine))) && Payments.At(s, u, Ended(Returned(yours))) && SameKey(s, t, u)
    ensures mine == yours
    ensures s.threads[t].payment.order.requestHash == s.threads[u].payment.order.requestHash
  {
    hide Payments.Reachable, InvLogs, InvKeys, Owns, RefusalOk, Payments.BodyOk;
    Payments.ReachableKeeps(w, s);
    assert ThreadOk(w, s, t) && ThreadOk(w, s, u);
  }

  /**
    A key holds the hash of the call that claimed it, and its response exactly when that call has returned one. So a
    retry is told the response if its hash is the same, mismatch if it is another, and in progress if there is none.
   */
  lemma KeyAnsweredExact(w: World, s: Payments.State, key: string, requestHash: string)
    requires Payments.Reachable(w, s) && key in s.winners
    ensures s.winners[key] in s.threads && key in s.store
    ensures var winner, claimed := s.threads[s.winners[key]], s.store[key];
            && winner.payment.order.idempotencyKey == key && claimed.hash == winner.payment.order.requestHash
            && (claimed.response.Some? <==> winner.pc.Ended? && winner.pc.end.Returned?)
            && (claimed.response.Some? ==> claimed.response.value == winner.pc.end.body)
            && var outcome := Idempotency.AtomicClaim(s.store, key, requestHash).1;
               && (outcome.Mismatch? <==> requestHash != winner.payment.order.requestHash)
               && (outcome.Duplicate? <==>
                     requestHash == winner.payment.order.requestHash && winner.pc.Ended? && winner.pc.end.Returned?)
               && (outcome.Duplicate? ==> outcome.response == winner.pc.end.body)
               && !outcome.New?
  {
    hide Payments.Reachable, InvLogs, Owns, RefusalOk, Payments.BodyOk;
    Payments.ReachableKeeps(w, s);
    assert ThreadOk(w, s, s.winners[key]);
  }

  /** Who the parties are is what the cards and accounts tables say of the order, and the payer is the caller's own. */
  lemma PartiesAsOrdered(w: World, s: Payments.State, t: nat)
    requires Payments.Reachable(w, s) && t in s.threads && s.threads[t].rrn.Some?
    ensures var p, cards, owners := s.threads[t].payment, w.directory.cards, w.directory.owners;
            var from, to := p.order.cardNumber, if p.order.kind.Transfer? then p.order.creditTo else "merchant:demo";
            && p.sender == (if from in cards then cards[from] else from)
            && p.sender in owners && owners[p.sender] == p.order.userId
            && p.recipient == (if to in cards then cards[to] else to)
            && (to in cards || to in owners)
  {
    hide Payments.Reachable, InvKeys, InvLogs, RefusalOk, PcOk;
    Payments.ReachableKeeps(w, s);
    assert ThreadOk(w, s, t);
  }

  /** The card or account is known, and its account has a name. */
  predicate IsKnown(directory: Directory, identifier: string) {
    if identifier in directory.cards then directory.cards[identifier] != ""
    else identifier in directory.owners && identifier != ""
  }

  /**
    A refusal says why, and was given before anything was sent: 400 for a key claimed with another request, 409 for one
    claimed with the same, 404 for a payer or payee who is not known, and 403 for a payer who is somebody else's.
   */
  lemma RefusalExplained(w: World, s: Payments.State, t: nat, httpStatus: nat)
    requires Payments.Reachable(w, s) && Payments.At(s, t, Ended(Refused(httpStatus)))
    ensures s.threads[t].rrn.None? && s.threads[t].payment.order.idempotencyKey in s.store
    ensures !s.threads[t].won ==>
              httpStatus ==
              if s.store[s.threads[t].payment.order.idempotencyKey].hash != s.threads[t].payment.order.requestHash
              then 400 else 409
    ensures var o, cards, owners := s.threads[t].payment.order, w.directory.cards, w.directory.owners;
            var from, to := o.cardNumber, if o.kind.Transfer? then o.creditTo else "merchant:demo";
            var payer := if from in cards then cards[from] else from;
            s.threads[t].won ==>
              && httpStatus == (if IsKnown(w.directory, from) && IsKnown(w.directory, to) then 403 else 404)
              && (httpStatus == 403 ==> payer !in owners || owners[payer] != o.userId)
  {
    hide Payments.Reachable, InvLogs, Owns;
    Payments.ReachableKeeps(w, s);
    assert ThreadOk(w, s, t);
  }

  /** An approval is what has reached record_purchase; what the risk gate stopped has not even reached authorize. */
  lemma BodySaysHowFar(w: World, s: Payments.State, t: nat, body: Body)
    requires Payments.Reachable(w, s) && Payments.At(s, t, Ended(Returned(body)))
    ensures body.status.Approved? <==> s.threads[t].payment.order.idempotencyKey in s.recordLog
    ensures body.status.Stopped? <==> s.threads[t].payment.order.idempotencyKey !in s.authorizeLog
  {
    hide Payments.Reachable, Owns, RefusalOk, NoneTwice;
    Payments.ReachableKeeps(w, s);
    assert ThreadOk(w, s, t);
    assert ThreadOk(w, s, s.winners[KeyOf(s.threads[t])]);
  }

  // ----- the risk gate, whatever the transport does

  /** How many attempts of the run, up to evaluation i, fall within the window that ends with it. */
  ghost function AttemptsInWindow(run: seq<Risk.Evaluation>, i: nat, window: real): nat
    requires i < |run|
  {
    |set j | 0 <= j <= i && run[j].time >= run[i].time - window|
  }

  /** Decline over a decline threshold, review over another. */
  predicate IsVerdictOn(config: Risk.Config, count: nat, cents: nat, entryMode: string, verdict: Risk.Verdict) {
    if count > config.velocityDecline || cents > config.amountDecline then verdict == Risk.Decline
    else if count > config.velocityReview || cents > config.amountReview
            || (entryMode == "01" && cents > config.manualReview) then verdict == Risk.Review
    else verdict == Risk.Approve
  }

  lemma JudgedExact(config: Risk.Config, run: seq<Risk.Evaluation>, i: nat)
    requires i < |run| && Risk.IsJudged(config, run, i)
    ensures IsVerdictOn(config, AttemptsInWindow(run, i, config.window), run[i].cents, run[i].entryMode, run[i].verdict)
  {
    hide Risk.Worst, Risk.Triggered, Velocity.Recent;
    var times, cutoff := Risk.Times(run[..i + 1]), run[i].time - config.window;
    Velocity.RecentExact(times, cutoff);
    assert (set j | 0 <= j < |times| && times[j] >= cutoff) == (set j | 0 <= j <= i && run[j].time >= cutoff);
    Risk.VerdictExact(config, |Velocity.Recent(times, cutoff)|, run[i].cents, run[i].entryMode);
  }

  /**
    A call the risk gate stopped sent nothing, and was stopped by the verdict on its own evaluation: with clock readings
    in order, the rules' on its amount, its entry mode and the card's attempts in the window.
   */
  lemma StopExplained(w: World, s: Payments.State, t: nat, body: Body, verdict: Risk.Verdict)
    requires Payments.Reachable(w, s) && Payments.At(s, t, Ended(Returned(body))) && s.threads[t].won
    requires body.status == Stopped(verdict)
    ensures s.threads[t].rrn.None? && verdict != Risk.Approve
    ensures var o, evaluated := s.threads[t].payment.order, s.threads[t].evaluated;
            && o.cardNumber in s.evaluations && evaluated.Some?
            && var run := s.evaluations[o.cardNumber];
               && evaluated.value < |run| && run[evaluated.value].verdict == verdict
               && run[evaluated.value].cents == o.amountCents
               && run[evaluated.value].entryMode == (if o.kind.Transfer? then "01" else o.entryMode)
               && (exists count :: IsVerdictOn(w.config, count, o.amountCents, run[evaluated.value].entryMode, verdict))
               && ((forall i, j | 0 <= i < j < |run| :: run[i].time <= run[j].time) ==>
                     IsVerdictOn(
                       w.config, AttemptsInWindow(run, evaluated.value, w.config.window), o.amountCents,
                       run[evaluated.value].entryMode, verdict))
  {
    hide Payments.Reachable, InvKeys, InvLogs, Owns, RefusalOk, InvBooks, Risk.IsJudged, Risk.Worst, Risk.Triggered,
         AttemptsInWindow;
    Payments.ReachableKeeps(w, s);
    ReachableGate(w, s);
    var card := s.threads[t].payment.order.cardNumber;
    assert ThreadOk(w, s, t) && EvaluatedOk(s, s.threads[t]);
    assert RunOk(w, s, card);
    var run, i := s.evaluations[card], s.threads[t].evaluated.value;
    assert IsVerdict(w, run[i]);
    var count: nat :| verdict == Risk.Worst(Risk.Triggered(w.config, count, run[i].cents, run[i].entryMode));
    Risk.VerdictExact(w.config, count, run[i].cents, run[i].entryMode);
    assert IsVerdictOn(w.config, count, run[i].cents, run[i].entryMode, verdict);
    if Velocity.InOrder(Risk.Times(run)) {
      JudgedExact(w.config, run, i);
    }
  }

  /** No payment above the risk limits, and none from another user's card, ever reaches the transport. */
  lemma OnlyClearedPaymentsSent(w: World, s: Payments.State, t: nat)
    requires Payments.Reachable(w, s) && t in s.threads && s.threads[t].rrn.Some?
    ensures var o := s.threads[t].payment.order;
            && o.amountCents <= w.config.amountDecline && o.amountCents <= w.config.amountReview
            && (o.amountCents > w.config.manualReview ==> !(o.kind.Transfer? || o.entryMode == "01"))
  {
    hide Payments.Reachable, InvKeys, InvLogs, RefusalOk, InvBooks, InvGate, Owns, PcOk;
    Payments.ReachableKeeps(w, s);
    ReachableGate(w, s);
    assert ThreadOk(w, s, t);
    PassedWithinLimits(w, s, t);
  }

  /** After any run, whatever was approved under whatever RRN, the books balance. */
  lemma BooksBalance(w: World, s: Payments.State)
    requires Payments.Reachable(w, s)
    ensures Ledger.Valid(s.ledger) && Ledger.SumOfBalances(s.ledger.entries, w.directory.owners.Keys) == 0
  {
    hide Payments.Reachable, InvGate, Ledger.SumOfBalances;
    ReachableGate(w, s);
    Ledger.BalancesAddUp(s.ledger.entries, w.directory.owners.Keys);
  }

  // ----- the switch's side, over the built-in transport

  /** Message d is a financial request for this RRN and amount, as the switch reads them, and the switch approved it. */
  predicate Approves(net: Correlation.State, d: nat, rrn: string, cents: nat) {
    && d in net.answers && d in net.written
    && net.answers[d].code == "00"
    && var seen := net.written[d].seen;
       seen.mti == "0200" && Get(seen, 37, "") == rrn && ParseInt(Get(seen, 4, "")) == Some(cents)
  }

  lemma SentRequest(w: World, s: Saga.State, t: nat)
    requires Saga.Inv(w, s) && HasSent(s.core, t)
    ensures t in s.net.calls && Correlation.Inv(s.net)
    ensures var p, rrn := s.core.threads[t].payment, s.core.threads[t].rrn.value;
            && Owns(w, p) && Saga.EncryptedOk(w, p) && EntryModes.IsRrn(rrn)
            && Saga.Faithful(Saga.AuthorizeRequest(p, rrn))
            && Transport.Sends(s.net, t, Saga.AuthorizeRequest(p, rrn))
  {
    hide InvBooks, InvKeys, InvLogs, Saga.InvPosted, Owns, Saga.EncryptedOk, PcOk, Saga.AuthorizeRequest, RefusalOk,
         Transport.AuthorizeFields, Correlation.Inv, Saga.IsGenerated, Saga.Faithful, Saga.ReadOf, Serials.Inv,
         EntryModes.IsRrn;
    assert ThreadOk(w, s.core, t) && Saga.SendOk(w, s, t);
    Saga.GeneratedIsRrn(s.core.threads[t].rrn.value);
  }

  lemma RequestOf(p: Payment, rrn: string)
    ensures var r := Saga.AuthorizeRequest(p, rrn);
            && r.rrn == rrn && r.pan == p.order.cardNumber && r.pinBlock == Some(p.block) && r.ksn == Some(p.ksn)
            && r.entryMode == EntryMode(p.order)
            && r.amountMinor == Transport.AmountToMinorUnits(p.order.amountCents)
  {
  }

  predicate IsWritten(s: Saga.State, t: nat) {
    HasSent(s.core, t) && t in s.net.calls && s.net.calls[t].draw in s.net.written
  }

  function RequestOfThread(s: Saga.State, t: nat): Transport.Request
    requires HasSent(s.core, t)
  {
    Saga.AuthorizeRequest(s.core.threads[t].payment, s.core.threads[t].rrn.value)
  }

  /** The switch has parsed a thread's message: what it read up to DE 22 is whole, and it read an RRN. */
  lemma RequestSeen(w: World, s: Saga.State, t: nat)
    requires Saga.Inv(w, s) && IsWritten(s, t)
    ensures var r, draw := RequestOfThread(s, t), s.net.calls[t].draw;
            var seen := s.net.written[draw].seen;
            && Transmit(Transport.RequestMessage(r, draw)) == Some(seen) && seen.mti == "0200"
            && EntryModes.FitsButMode(r) && EntryModes.IsRrn(r.rrn) && EntryModes.BeforeModeRead(r, draw, seen)
            && Saga.ReadOf(s.net, t) == Some(Get(seen, 37, ""))
  {
    hide Saga.Inv, Owns, Saga.EncryptedOk, Saga.AuthorizeRequest, Saga.Faithful, Transport.AuthorizeFields,
         Correlation.Inv, Correlation.Stan, FIELD_SPECS, Legible, Transmit, EntryModes.BeforeModeRead,
         EntryModes.FitsButMode, EntryModes.IsRrn;
    SentRequest(w, s, t);
    Correlation.RequestSeen(s.net, t);
    var r, draw := RequestOfThread(s, t), s.net.calls[t].draw;
    RequestOf(s.core.threads[t].payment, s.core.threads[t].rrn.value);
    assert Correlation.Outgoing(s.net.calls[t]) == Transport.RequestMessage(r, draw);
    Transport.LegibleType(Transport.RequestMessage(r, draw));
    Saga.FaithfulRead(r, draw);
  }

  /** The switch reads an RRN, and the exact cents of the payment. */
  lemma MessageSeen(w: World, s: Saga.State, t: nat)
    requires Saga.Inv(w, s) && IsWritten(s, t)
    ensures var th, seen := s.core.threads[t], s.net.written[s.net.calls[t].draw].seen;
            && seen.mti == "0200" && Saga.ReadOf(s.net, t) == Some(Get(seen, 37, ""))
            && ParseInt(Get(seen, 4, "")) == Some(th.payment.order.amountCents)
  {
    hide Saga.Inv, Saga.AuthorizeRequest, Transport.Sound, Transport.Seen, Transport.AmountToMinorUnits, Saga.ReadOf,
         Transmit, Transport.RequestMessage;
    RequestSeen(w, s, t);
    var p, r, draw := s.core.threads[t].payment, RequestOfThread(s, t), s.net.calls[t].draw;
    RequestOf(p, s.core.threads[t].rrn.value);
    Transport.SwitchReadsCents(EntryModes.Fitted(r), draw, p.order.amountCents);
    assert EntryModes.ReadsWhole(r, draw, s.net.written[draw].seen, 4);
  }

  /**
    The card and the kind of payment are those ordered; so are currency, entry mode and the account to credit when the
    entry mode takes the two bytes of its element.
   */
  lemma SeenAsOrdered(w: World, s: Saga.State, t: nat)
    requires Saga.Reachable(w, s) && IsWritten(s, t)
    ensures var p, seen := s.core.threads[t].payment, s.net.written[s.net.calls[t].draw].seen;
            && Get(seen, 2, "") == p.order.cardNumber
            && Get(seen, 3, "") == (if p.order.kind.Transfer? then "400000" else "000000")
            && (p.order.kind.Transfer? ==> Get(seen, 22, "") == "001")
            && (p.order.kind.Purchase? && |p.order.entryMode| == 2 && AllDigits(p.order.entryMode) ==>
                  Get(seen, 22, "") == "0" + p.order.entryMode)
            && (EntryModes.IsAligned(if p.order.kind.Transfer? then "01" else p.order.entryMode) ==>
                  && Get(seen, 49, "") == "840" && Get(seen, 37, "") == s.core.threads[t].rrn.value
                  && Get(seen, 103, "") ==
                     if p.order.kind.Purchase? then ""
                     else if p.order.creditTo in w.directory.cards then w.directory.cards[p.order.creditTo]
                     else p.order.creditTo)
  {
    hide Saga.Reachable, Payments.Reachable, Saga.Inv, Transport.Sound, Transport.RequestMessage, Transport.Seen,
         Transmit, EntryModes.ModeBytes, Legible, Bcd.Decode, Transport.RrnRead,
         Transport.AmountToMinorUnits, RJust, Saga.ReadOf;
    Saga.ReachableKeeps(w, s);
    PartiesAsOrdered(w, s.core, t);
    RequestSeen(w, s, t);
    var p, r, draw := s.core.threads[t].payment, RequestOfThread(s, t), s.net.calls[t].draw;
    var seen := s.net.written[draw].seen;
    ThreeDigits();
    TwoDigits(EntryMode(p.order));
    Transport.SwitchReads(EntryModes.Fitted(r), draw);
    assert EntryModes.ReadsWhole(r, draw, seen, 2) && EntryModes.ReadsWhole(r, draw, seen, 3);
    if EntryModes.IsAligned(EntryMode(p.order)) {
      EntryModes.AnyAlignedRead(r, draw);
      OwnRead(seen, r, draw);
      assert EntryModes.ReadsWhole(r, draw, seen, 49) && EntryModes.ReadsWhole(r, draw, seen, 103);
    }
    if Transport.FitsDigits(EntryMode(p.order), 3) {
      EntryModes.ModeDecodes(r);
    }
  }

  lemma TwoDigits(entryMode: string)
    ensures |entryMode| == 2 && AllDigits(entryMode) ==>
              Transport.FitsDigits(entryMode, 3) && RJust(entryMode, 3, '0') == "0" + entryMode
  {
  }

  lemma ThreeDigits()
    ensures RJust("840", 3, '0') == "840" && RJust("400000", 6, '0') == "400000" && RJust("000000", 6, '0') == "000000"
  {
  }

  lemma OwnRead(seen: Codec.Message, r: Transport.Request, draw: nat)
    requires Transmit(Transport.RequestMessage(r, draw)) == Some(seen)
    ensures Transport.RrnRead(Transport.RequestMessage(r, draw)) == Some(r.rrn) ==> Get(seen, 37, "") == r.rrn
  {
    hide Transmit, Transport.RequestMessage;
  }

  /**
    From a payment that was written with an entry mode of two bytes, the switch, holding the HSM's base key, recovers
    the PIN that was typed.
   */
  lemma PinReachesSwitch(w: World, s: Saga.State, t: nat)
    requires Saga.Reachable(w, s) && IsWritten(s, t)
    ensures MockHsm.IsMac(w.mac)
    ensures var p, seen := s.core.threads[t].payment, s.net.written[s.net.calls[t].draw].seen;
            EntryModes.IsAligned(EntryMode(p.order)) ==>
              && (Transport.PinSeen(w.mac, p.ksn, Get(seen, 52, ""), Get(seen, 2, "")) == Some(p.order.pin) <==>
                    |p.order.pin| <= 14 && AllUpperHex(p.order.pin))
              && Get(seen, 53, "") == RJust(p.ksn, 16, '0')
  {
    hide Saga.Reachable, Payments.Reachable, Saga.Inv, Owns, Saga.AuthorizeRequest, Transport.Sound, Saga.Faithful,
         Transport.RequestMessage, Correlation.Inv, Transport.Seen, Transport.PinSeen, Transport.Sends, Legible, Transmit,
         MockHsm.EncryptUnder, MockHsm.IsMac, RJust, PinBlock.BuildIso0PinBlock, EntryModes.ModeBytes, Saga.ReadOf;
    Saga.ReachableKeeps(w, s);
    SentRequest(w, s, t);
    RequestSeen(w, s, t);
    var p, r, draw := s.core.threads[t].payment, RequestOfThread(s, t), s.net.calls[t].draw;
    var seen := s.net.written[draw].seen;
    RequestOf(p, s.core.threads[t].rrn.value);
    if EntryModes.IsAligned(EntryMode(p.order)) {
      EntryModes.AnyAlignedRead(r, draw);
      Transport.PinArrives(EntryModes.Fitted(r), draw, w.mac, p.ksn, p.order.pin);
      assert EntryModes.ReadsWhole(r, draw, seen, 2) && EntryModes.ReadsWhole(r, draw, seen, 52);
      assert EntryModes.ReadsWhole(r, draw, seen, 53);
    }
  }

  /** The approved requests are those of the threads the switch approved, each under the RRN it read and the amount. */
  lemma ApprovedThreadSeen(w: World, s: Saga.State, t: nat)
    requires Saga.Inv(w, s) && HasSent(s.core, t) && Transport.AnsweredWith(s.net, t, "00")
    ensures Saga.ReadOf(s.net, t).Some?
    ensures Approves(
              s.net, s.net.calls[t].draw, Saga.ReadOf(s.net, t).value, s.core.threads[t].payment.order.amountCents)
  {
    hide Saga.Inv, Correlation.Inv, Saga.ReadOf;
    Saga.NetIsOk(w, s);
    SentRequest(w, s, t);
    AnswerWritten(s.net, s.net.calls[t].draw);
    MessageSeen(w, s, t);
  }

  lemma AnswerWritten(net: Correlation.State, d: nat)
    requires Correlation.Inv(net) && d in net.answers
    ensures d in net.written
  {
    hide Correlation.InvOwner, Correlation.InvCalls, Correlation.InvPending, Correlation.InvDispatches,
         Correlation.SentOk;
    assert Correlation.AnswerOk(net, d);
  }

  lemma ApprovedThread(w: World, s: Saga.State, d: nat, rrn: string, cents: nat) returns (t: nat)
    requires Saga.Inv(w, s) && Approves(s.net, d, rrn, cents)
    ensures HasSent(s.core, t) && Saga.ReadOf(s.net, t) == Some(rrn)
    ensures s.core.threads[t].payment.order.amountCents == cents
    ensures Transport.AnsweredWith(s.net, t, "00") && s.net.calls[t].draw == d
  {
    hide Payments.Inv, InvBooks, Saga.InvSends, Saga.InvPosted, Correlation.Inv, Saga.ReadOf, Serials.Inv;
    t := Correlation.FinancialIsRequest(s.net, d);
    MessageSeen(w, s, t);
  }

  // ----- the ledger's side

  /**
    The transaction is what the order asked for: its amount, one debit entry on the payer's account, which is the
    caller's own, and one credit entry on the payee's.
   */
  ghost predicate IsOrdered(w: World, s: Saga.State, rrn: string, t: nat)
    requires rrn in s.core.ledger.transactions
  {
    && HasSent(s.core, t) && Saga.ReadOf(s.net, t) == Some(rrn)
    && var o, cards := s.core.threads[t].payment.order, w.directory.cards;
       var from, to := o.cardNumber, if o.kind.Transfer? then o.creditTo else "merchant:demo";
       var payer, payee := if from in cards then cards[from] else from, if to in cards then cards[to] else to;
       && payer in w.directory.owners && w.directory.owners[payer] == o.userId
       && s.core.ledger.transactions[rrn].amountCents == o.amountCents
       && Ledger.EntriesOf(s.core.ledger.entries, rrn) ==
          [Ledger.Entry(rrn, payer, Ledger.Debit, o.amountCents), Ledger.Entry(rrn, payee, Ledger.Credit, o.amountCents)]
  }

  lemma PostedAsOrdered(w: World, s: Saga.State, rrn: string, t: nat)
    requires Saga.Reachable(w, s) && rrn in s.core.ledger.transactions && Saga.IsPoster(s, rrn, t)
    ensures IsOrdered(w, s, rrn, t)
  {
    hide Saga.Reachable, Payments.Reachable, Saga.Inv, Ledger.EntriesOf, Transport.AnsweredWith, Saga.ReadOf;
    Saga.ReachableKeeps(w, s);
    PartiesAsOrdered(w, s.core, t);
  }

  /**
    Every transaction in the ledger is one that exactly one approved request asked for, with the amount the switch
    read, posted from an account of the user who ordered it.
   */
  lemma LedgerIsApproved(w: World, s: Saga.State, rrn: string)
    requires Saga.Reachable(w, s) && rrn in s.core.ledger.transactions
    ensures exists t, d ::
              && IsOrdered(w, s, rrn, t)
              && Approves(s.net, d, rrn, s.core.threads[t].payment.order.amountCents)
              && forall e, cents :: Approves(s.net, e, rrn, cents) ==> e == d
  {
    hide Saga.Reachable, Payments.Reachable, Payments.Inv, InvBooks, Saga.InvSends, Correlation.Inv, Ledger.EntriesOf,
         Ledger.Posting, Owns, Approves, Transport.AnsweredWith, Saga.ReadOf, Serials.Inv, IsOrdered;
    Saga.ReachableKeeps(w, s);
    var t :| Saga.IsPoster(s, rrn, t);
    PostedAsOrdered(w, s, rrn, t);
    SentRequest(w, s, t);
    ApprovedThreadSeen(w, s, t);
    var d := s.net.calls[t].draw;
    forall e, cents | Approves(s.net, e, rrn, cents)
      ensures e == d
    {
      var u := ApprovedThread(w, s, e, rrn, cents);
    }
  }

  /** A call that says approved has its transaction in the ledger; one that says anything else has none. */
  lemma OnlyApprovalsPost(w: World, s: Saga.State, t: nat, body: Body)
    requires Saga.Reachable(w, s) && Payments.At(s.core, t, Ended(Returned(body)))
    ensures KeyOf(s.core.threads[t]) in s.core.winners
    ensures var read := Saga.ReadOf(s.net, s.core.winners[KeyOf(s.core.threads[t])]);
            && (body.status.Approved? <==> read.Some? && read.value in s.core.ledger.transactions)
            && (body.status.Approved? ==> body.rrn == read)
  {
    hide Saga.Reachable, Payments.Reachable, InvBooks, Saga.InvPosted, Owns, RefusalOk, NoneTwice, Serials.Inv,
         Saga.DeclinedBySwitch, Saga.EncryptedOk, Saga.IsGenerated, Saga.Faithful, Transport.Sends, Correlation.Inv,
         Transport.RrnRead, Correlation.Outgoing;
    Saga.ReachableKeeps(w, s);
    var winner := s.core.winners[KeyOf(s.core.threads[t])];
    assert ThreadOk(w, s.core, t) && ThreadOk(w, s.core, winner) && Saga.SendOk(w, s, winner);
    assert winner in s.net.calls <==> HasSent(s.core, winner);
  }

  /** A call that says unknown got no answer: its wait ran out or a send raised; one that says declined was declined. */
  lemma UnknownMeansUnanswered(w: World, s: Saga.State, t: nat, body: Body)
    requires Saga.Reachable(w, s) && Payments.At(s.core, t, Ended(Returned(body))) && HasSent(s.core, t)
    ensures body.rrn == (if body.status.Approved? then Saga.ReadOf(s.net, t) else s.core.threads[t].rrn)
    ensures Saga.Finished(s.net, t)
    ensures body.status.Unknown? <==> !s.net.calls[t].pc.result.Responded?
    ensures body.status.Declined? ==> exists code :: code != "00" && Transport.AnsweredWith(s.net, t, code)
  {
    hide Saga.Reachable, Payments.Reachable, InvBooks, Saga.InvNet, Saga.InvPosted, InvKeys, InvLogs, Owns, RefusalOk,
         PcOk, Saga.EncryptedOk, Saga.IsGenerated, Saga.Faithful, Saga.ReadOf, Transport.Sends, Serials.Inv;
    Saga.ReachableKeeps(w, s);
    assert ThreadOk(w, s.core, t) && Saga.SendOk(w, s, t);
  }

  // ----- serial numbers

  function SerialOf(s: Payments.State, t: nat): string {
    if t in s.threads then s.threads[t].payment.ksn else ""
  }

  ghost predicate SameSerials(s: Payments.State, u: Payments.State) {
    forall e :: SerialOf(u, e) == SerialOf(s, e)
  }

  lemma SetSerials(s: Payments.State, u: Payments.State, t: nat)
    requires t in u.threads && u.threads == s.threads[t := u.threads[t]]
    requires u.threads[t].payment.ksn == SerialOf(s, t)
    ensures SameSerials(s, u)
  {
  }

  lemma EarlySerials(w: World, s: Payments.State, a: Payments.Action, u: Payments.State)
    requires Payments.Step(w, s, a, u)
    ensures a.Arrives? || a.Claims? || a.Checks? || a.Assesses? ==> SameSerials(s, u)
  {
    hide SameSerials, ResolveAccount, CreditTo, Unregistered, Evaluate, KeptNow, Payments.Encrypt, Payments.Send,
         Payments.Finish, Payments.Post, Payments.StoreResponse, Payments.Crash, CanPost, CanStore, CanCrash,
         Idempotency.AtomicClaim;
    match a
    case Arrives(t, _) => SetSerials(s, u, t);
    case Claims(t) => SetSerials(s, u, t);
    case Checks(t) => SetSerials(s, u, t);
    case Assesses(t, _) => SetSerials(s, u, t);
    case _ =>
  }

  lemma MiddleSerials(w: World, s: Payments.State, a: Payments.Action, u: Payments.State)
    requires Payments.Step(w, s, a, u)
    ensures a.Sends? || a.Finishes? || a.Posts? ==> SameSerials(s, u)
  {
    hide SameSerials, Payments.Arrive, Payments.Claim, Payments.Check, Payments.Assess, Payments.Encrypt,
         Payments.StoreResponse, Payments.Crash, OnRefusal, OnRecord, Ledger.Record;
    match a
    case Sends(t, _) => SetSerials(s, u, t);
    case Finishes(t, _) => SetSerials(s, u, t);
    case Posts(t, _) => SetSerials(s, u, t);
    case _ =>
  }

  lemma LateSerials(w: World, s: Payments.State, a: Payments.Action, u: Payments.State)
    requires Payments.Step(w, s, a, u)
    ensures a.Stores? || a.Crashes? ==> SameSerials(s, u)
  {
    hide SameSerials, Payments.Arrive, Payments.Claim, Payments.Check, Payments.Assess, Payments.Encrypt, Payments.Send,
         Payments.Finish, Payments.Post, Idempotency.AtomicStore;
    match a
    case Stores(t) => SetSerials(s, u, t);
    case Crashes(t) => SetSerials(s, u, t);
    case _ =>
  }

  /** Every serial number in use is the text of what its own call read back from the counter. */
  ghost predicate InvSerials(s: Saga.State) {
    forall t | SerialOf(s.core, t) != "" ::
      Serials.HasRead(s.hsm, t) && SerialOf(s.core, t) == MockHsm.KsnText(s.hsm.draws[t].stage.value)
  }

  lemma EncryptSerials(w: World, s: Saga.State, u: Saga.State, t: nat, ksn: string, block: Option<seq<Bytes.byte>>)
    requires Payments.At(s.core, t, Cleared) && u.core == Payments.Encrypt(s.core, t, ksn, block)
    requires Saga.HsmEncrypts(w, s, u, t, s.core.threads[t].payment.order, ksn, block)
    requires InvSerials(s)
    ensures InvSerials(u)
  {
    hide Saga.HsmBlock, MockHsm.KsnText, MockHsm.IsMac;
    assert forall e | e != t :: SerialOf(u.core, e) == SerialOf(s.core, e);
    assert SerialOf(u.core, t) == SerialOf(s.core, t) || SerialOf(u.core, t) == ksn;
  }

  lemma SameSerialsKeep(s: Saga.State, u: Saga.State)
    requires InvSerials(s) && SameSerials(s.core, u.core) && u.hsm == s.hsm
    ensures InvSerials(u)
  {
    hide SerialOf, MockHsm.KsnText;
  }

  /** A number once read stays what it is. */
  lemma DrawSerials(s: Saga.State, d: Serials.Action, u: Saga.State)
    requires InvSerials(s) && Serials.Step(s.hsm, d, u.hsm) && u.core == s.core
    ensures InvSerials(u)
  {
    hide SerialOf, MockHsm.KsnText;
    forall t | Serials.HasRead(s.hsm, t)
      ensures Serials.HasRead(u.hsm, t) && u.hsm.draws[t] == s.hsm.draws[t]
    {
    }
  }

  lemma StepSerials(w: World, s: Saga.State, a: Saga.Action, u: Saga.State)
    requires InvSerials(s) && Saga.Step(w, s, a, u)
    ensures InvSerials(u)
  {
    hide SameSerials, InvSerials, Serials.Step, Saga.CanTravel, Saga.CallStarts, Payments.Arrive, Payments.Claim,
         Payments.Check, Payments.Assess, Payments.Encrypt, Payments.Send, Payments.Finish, Payments.Post,
         Payments.StoreResponse, Payments.Crash;
    match a
    case Travels(_) =>
      Unspent(s.core);
      SameSerialsKeep(s, u);
    case Draws(d) => DrawSerials(s, d, u);
    case Pays(b) =>
      if b.Encrypts? {
        EncryptSerials(w, s, u, b.t, b.ksn, b.block);
      } else {
        EarlySerials(w, s.core, b, u.core);
        MiddleSerials(w, s.core, b, u.core);
        LateSerials(w, s.core, b, u.core);
        Saga.SerialsKept(w, s, b, u);
        SameSerialsKeep(s, u);
      }
  }

  lemma Unspent(s: Payments.State)
    ensures SameSerials(s, s)
  {
  }

  lemma {:induction false} RunSerials(w: World, states: seq<Saga.State>, actions: seq<Saga.Action>, i: nat)
    requires Saga.IsRun(w, states, actions) && i <= |actions|
    ensures InvSerials(states[i])
  {
    hide InvSerials, Saga.Step;
    if i == 0 {
      NoSerials(w);
    } else {
      RunSerials(w, states, actions, i - 1);
      assert Saga.IsStep(w, states, actions, i - 1);
      StepSerials(w, states[i - 1], actions[i - 1], states[i]);
    }
  }

  lemma NoSerials(w: World)
    ensures InvSerials(Saga.Begin(w))
  {
  }

  ghost predicate SerialsDiffer(s: Payments.State) {
    forall t, u | SerialOf(s, t) != "" && SerialOf(s, t) == SerialOf(s, u) :: t == u
  }

  /** Every call that has begun to draw has its block. */
  ghost predicate AllEncrypted(s: Saga.State) {
    forall t | t in s.hsm.draws :: SerialOf(s.core, t) != ""
  }

  /**
    No two payments are encrypted under one serial number as long as no call stores to the HSM's counter between the
    load and the read of another; and once all that drew have encrypted, only then.
   */
  lemma SerialsDistinctExact(w: World, s: Saga.State)
    requires Saga.Reachable(w, s)
    ensures Serials.Undisturbed(s.hsm) ==> SerialsDiffer(s.core)
    ensures AllEncrypted(s) ==> (SerialsDiffer(s.core) <==> Serials.Undisturbed(s.hsm))
  {
    hide Saga.Reachable, Saga.Inv, Serials.Inv, Serials.Undisturbed, SerialOf, MockHsm.KsnText, Payments.Reachable;
    Saga.ReachableKeeps(w, s);
    SerialsAreRead(w, s);
    HsmIsOk(w, s);
    Serials.DistinctExact(s.hsm);
    forall t, u | SerialOf(s.core, t) != "" && SerialOf(s.core, u) != ""
      ensures SerialOf(s.core, t) == SerialOf(s.core, u) <==> s.hsm.draws[t].stage == s.hsm.draws[u].stage
    {
      MockHsm.KsnDistinct(s.hsm.draws[t].stage.value, s.hsm.draws[u].stage.value);
    }
  }

  lemma HsmIsOk(w: World, s: Saga.State)
    requires Saga.Inv(w, s)
    ensures Serials.Inv(s.hsm)
  {
    hide Correlation.Inv, Payments.Inv, InvBooks, Saga.InvSends, Saga.InvNet, Saga.InvPosted, Serials.Inv;
  }

  lemma SerialsAreRead(w: World, s: Saga.State)
    requires Saga.Reachable(w, s)
    ensures InvSerials(s)
  {
    hide InvSerials, Saga.Step;
    var states, actions :| Saga.IsRun(w, states, actions) && states[|actions|] == s;
    RunSerials(w, states, actions, |actions|);
  }

  // ----- at the end of the day

  ghost predicate ApprovedFor(net: Correlation.State, rrn: string, cents: nat) {
    exists d :: Approves(net, d, rrn, cents)
  }

  /** The settlement file holds every RRN and amount the switch approved, and nothing else. */
  ghost predicate IsSettlement(net: Correlation.State, settlement: map<string, int>) {
    && (forall rrn | rrn in settlement :: settlement[rrn] >= 0 && ApprovedFor(net, rrn, settlement[rrn]))
    && (forall rrn, cents | ApprovedFor(net, rrn, cents) :: rrn in settlement && settlement[rrn] == cents)
  }

  function LedgerByRrn(s: Saga.State): map<string, int> {
    map rrn | rrn in s.core.ledger.transactions :: s.core.ledger.transactions[rrn].amountCents
  }

  predicate AllEnded(s: Saga.State) {
    forall t | t in s.core.threads :: s.core.threads[t].pc.Ended?
  }

  /** The switch approved the call, but it ended not knowing, or crashed before the ledger had it. */
  predicate IsLost(s: Saga.State, t: nat, rrn: string) {
    && HasSent(s.core, t) && Saga.ReadOf(s.net, t) == Some(rrn) && Transport.AnsweredWith(s.net, t, "00")
    && match s.core.threads[t].pc
       case Ended(Returned(body)) => body.status.Unknown?
       case Ended(Crashed) => rrn !in s.core.ledger.transactions
       case _ => false
  }

  ghost predicate NothingLost(s: Saga.State) {
    forall t, rrn :: !IsLost(s, t, rrn)
  }

  /** Whatever the ledger holds, the switch approved, for the same amount. */
  lemma LedgerIsSettled(w: World, s: Saga.State, settlement: map<string, int>, rrn: string)
    requires Saga.Inv(w, s) && IsSettlement(s.net, settlement) && rrn in s.core.ledger.transactions
    ensures rrn in settlement && settlement[rrn] == s.core.ledger.transactions[rrn].amountCents
  {
    hide Payments.Inv, InvBooks, Saga.InvSends, Saga.InvNet, Ledger.EntriesOf, Ledger.Posting, Approves,
         Transport.AnsweredWith;
    var t :| Saga.IsPoster(s, rrn, t);
    SentRequest(w, s, t);
    ApprovedThreadSeen(w, s, t);
    assert ApprovedFor(s.net, rrn, s.core.threads[t].payment.order.amountCents);
  }

  lemma LostIsMissing(w: World, s: Saga.State, t: nat, rrn: string)
    requires Saga.Inv(w, s) && IsLost(s, t, rrn)
    ensures rrn !in s.core.ledger.transactions
  {
    hide InvBooks, Saga.InvNet, Saga.InvPosted, InvKeys, InvLogs, Owns, RefusalOk, Saga.EncryptedOk, Saga.IsGenerated,
         Saga.Faithful, Saga.ReadOf, Serials.Inv, Transport.Sends, Saga.DeclinedBySwitch, Transport.AnsweredWith;
    assert ThreadOk(w, s.core, t) && Saga.SendOk(w, s, t);
  }

  lemma MissingIsLost(w: World, s: Saga.State, t: nat, rrn: string)
    requires Saga.Inv(w, s) && HasSent(s.core, t) && Saga.ReadOf(s.net, t) == Some(rrn)
    requires Transport.AnsweredWith(s.net, t, "00")
    requires s.core.threads[t].pc.Ended? && rrn !in s.core.ledger.transactions
    ensures IsLost(s, t, rrn)
  {
    hide InvBooks, Saga.InvNet, Saga.InvPosted, InvKeys, InvLogs, Owns, RefusalOk, Saga.EncryptedOk, Saga.IsGenerated,
         Saga.Faithful, Saga.ReadOf, Serials.Inv, Transport.Sends;
    assert ThreadOk(w, s.core, t) && Saga.SendOk(w, s, t);
  }

  /** An approved RRN is missing from the ledger exactly when its call ended unknown or crashed. */
  lemma MissingExact(w: World, s: Saga.State, settlement: map<string, int>, rrn: string)
    requires Saga.Inv(w, s) && IsSettlement(s.net, settlement) && AllEnded(s)
    ensures rrn in settlement && rrn !in s.core.ledger.transactions <==> exists t :: IsLost(s, t, rrn)
  {
    hide Saga.Inv, IsLost, Approves, Transport.AnsweredWith;
    if rrn in settlement && rrn !in s.core.ledger.transactions {
      var d :| Approves(s.net, d, rrn, settlement[rrn]);
      var t := ApprovedThread(w, s, d, rrn, settlement[rrn]);
      MissingIsLost(w, s, t, rrn);
    }
    forall t | IsLost(s, t, rrn)
      ensures rrn in settlement && rrn !in s.core.ledger.transactions
    {
      LostIsMissing(w, s, t, rrn);
      LostWasApproved(w, s, t, rrn);
    }
  }

  lemma LostWasApproved(w: World, s: Saga.State, t: nat, rrn: string)
    requires Saga.Inv(w, s) && IsLost(s, t, rrn)
    ensures exists cents :: ApprovedFor(s.net, rrn, cents)
  {
    hide Saga.Inv, Approves;
    ApprovedThreadSeen(w, s, t);
    assert ApprovedFor(s.net, rrn, s.core.threads[t].payment.order.amountCents);
  }

  /**
    Reconciling the ledger with the switch's settlement never finds an RRN only in the ledger or a differing amount;
    once all calls have ended, what is only in the settlement is exactly what was approved and lost on the way back.
   */
  lemma Reconciles(w: World, s: Saga.State, settlement: map<string, int>, r: Reconciliation.Result, rrns: seq<string>)
    requires Saga.Reachable(w, s) && IsSettlement(s.net, settlement)
    requires Reconciliation.IsPartition(r, LedgerByRrn(s), settlement, rrns)
    requires (set x | x in rrns) == LedgerByRrn(s).Keys + settlement.Keys
    ensures r.onlyInLedger == [] && r.amountMismatches == []
    ensures AllEnded(s) ==> forall x :: x in r.onlyInSettlement <==> exists t :: IsLost(s, t, x)
    ensures AllEnded(s) ==> (r.IsClean() <==> NothingLost(s))
  {
    hide Saga.Inv, Saga.Reachable, Payments.Reachable, IsSettlement, IsLost, AllEnded;
    Saga.ReachableKeeps(w, s);
    forall x | x in LedgerByRrn(s)
      ensures x in settlement && settlement[x] == LedgerByRrn(s)[x]
    {
      LedgerIsSettled(w, s, settlement, x);
    }
    NothingOneSided(LedgerByRrn(s), settlement, r, rrns);
    if AllEnded(s) {
      forall x
        ensures x in r.onlyInSettlement <==> exists t :: IsLost(s, t, x)
      {
        MissingExact(w, s, settlement, x);
        OnlyInSettlement(LedgerByRrn(s), settlement, r, rrns, x);
      }
      Reconciliation.EmptyExact(r.onlyInSettlement);
      forall t, x | IsLost(s, t, x)
        ensures r.onlyInSettlement != []
      {
        assert x in r.onlyInSettlement;
      }
      forall x | x in r.onlyInSettlement
        ensures !NothingLost(s)
      {
        var t :| IsLost(s, t, x);
      }
    }
  }

  lemma NothingOneSided(
      ledger: map<string, int>, settlement: map<string, int>, r: Reconciliation.Result, rrns: seq<string>)
    requires Reconciliation.IsPartition(r, ledger, settlement, rrns)
    requires forall x | x in ledger :: x in settlement && settlement[x] == ledger[x]
    ensures r.onlyInLedger == [] && r.amountMismatches == []
  {
    Reconciliation.EmptyExact(r.onlyInLedger);
    Reconciliation.EmptyExact(r.Mismatched());
  }

  lemma OnlyInSettlement(
      ledger: map<string, int>, settlement: map<string, int>, r: Reconciliation.Result, rrns: seq<string>, x: string)
    requires Reconciliation.IsPartition(r, ledger, settlement, rrns)
    requires (set y | y in rrns) == ledger.Keys + settlement.Keys
    ensures x in r.onlyInSettlement <==> x in settlement && x !in ledger
  {
    assert x in rrns <==> x in ledger.Keys + settlement.Keys;
  }
}
