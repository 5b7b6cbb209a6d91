/** What each step of a purchase or transfer call comes to (api/routes/transactions.py:65-186), case by case. */
module CallSteps {
  import opened Wrappers
  import opened Bytes
  import opened Payments
  import Idempotency
  import Ledger
  import Risk
  import Transport
  import Velocity

  function OrderOf(s: State, t: nat): Order
    requires t in s.threads
  {
    s.threads[t].payment.order
  }

  /**
    A call whose key is free takes it and goes on. Another is told the response the key holds, 409 while it holds none,
    or 400 when it was claimed for another request; and the key stays as it is.
   */
  lemma ClaimStep(w: World, s: State, t: nat, u: State)
    requires Step(w, s, Claims(t), u)
    ensures t in s.threads && t in u.threads
    ensures var o := OrderOf(s, t);
            if o.idempotencyKey !in s.store then
              && u.threads[t].pc == Claimed && u.threads[t].won
              && u.store == s.store[o.idempotencyKey := Idempotency.Claimed(o.requestHash, None)]
            else
              && u.store == s.store
              && u.threads[t].pc == Ended(
                   if s.store[o.idempotencyKey].hash != o.requestHash then Refused(400)
                   else if s.store[o.idempotencyKey].response.Some?
                   then Returned(s.store[o.idempotencyKey].response.value)
                   else Refused(409))
  {
  }

  /** Both parties are looked up, and the payer has to be the caller's own. */
  lemma CheckStep(w: World, s: State, t: nat, u: State)
    requires Step(w, s, Checks(t), u)
    ensures t in s.threads && t in u.threads
    ensures var o, cards, owners := OrderOf(s, t), w.directory.cards, w.directory.owners;
            var from, to := o.cardNumber, if o.kind.Transfer? then o.creditTo else "merchant:demo";
            var payer, payee := if from in cards then cards[from] else from, if to in cards then cards[to] else to;
            if (from !in cards && from !in owners) || (to !in cards && to !in owners) || payer == "" || payee == ""
            then u.threads[t].pc == Ended(Refused(404))
            else if payer !in owners || owners[payer] != o.userId then u.threads[t].pc == Ended(Refused(403))
            else
              && u.threads[t].pc == Checked
              && u.threads[t].payment.sender == payer && u.threads[t].payment.recipient == payee
  {
  }

  /** The call goes on when the rules have nothing to say of it, and otherwise is about to say so. */
  lemma AssessStep(w: World, s: State, t: nat, now: real, u: State)
    requires Step(w, s, Assesses(t, now), u)
    ensures t in s.threads && t in u.threads
    ensures var o := OrderOf(s, t);
            var before := if o.cardNumber in s.attempts then s.attempts[o.cardNumber] else [];
            var count := |set i | 0 <= i <= |before| && (before + [now])[i] >= now - w.config.window|;
            var mode := if o.kind.Transfer? then "01" else o.entryMode;
            u.threads[t].pc ==
            if count > w.config.velocityDecline || o.amountCents > w.config.amountDecline
            then Posted(Body(Stopped(Risk.Decline), None, None, None, None))
            else if count > w.config.velocityReview || o.amountCents > w.config.amountReview
                    || (mode == "01" && o.amountCents > w.config.manualReview)
            then Posted(Body(Stopped(Risk.Review), None, None, None, None))
            else Cleared
  {
    hide Risk.Worst, Risk.Triggered, Velocity.Recent;
    var o := OrderOf(s, t);
    var attempts := Velocity.Get(s.attempts, o.cardNumber) + [now];
    var cutoff := now - w.config.window;
    Velocity.RecentExact(attempts, cutoff);
    assert (set i | 0 <= i < |attempts| && attempts[i] >= cutoff) ==
           (set i | 0 <= i <= |attempts| - 1 && attempts[i] >= cutoff);
    Risk.VerdictExact(w.config, |Velocity.Recent(attempts, cutoff)|, o.amountCents, EntryMode(o));
  }

  /** With a block the call goes on to send; without one it ends in an exception. */
  lemma EncryptStep(w: World, s: State, t: nat, ksn: string, block: Option<seq<byte>>, u: State)
    requires Step(w, s, Encrypts(t, ksn, block), u)
    ensures t in s.threads && t in u.threads
    ensures block.None? ==> u.threads[t].pc == Ended(Crashed)
    ensures block.Some? ==>
              && u.threads[t].pc == Encrypted && u.threads[t].payment.ksn == ksn
              && u.threads[t].payment.block == block.value
  {
  }

  /** It sends under the RRN it is given, and its key is logged. */
  lemma SendStep(w: World, s: State, t: nat, rrn: string, u: State)
    requires Step(w, s, Sends(t, rrn), u)
    ensures t in s.threads && t in u.threads && u.threads[t].pc == Sent && u.threads[t].rrn == Some(rrn)
    ensures u.threads[t].payment == s.threads[t].payment
    ensures u.authorizeLog == s.authorizeLog + [OrderOf(s, t).idempotencyKey]
  {
  }

  /** What authorize returns is taken as it is; an exception it lets through ends the call. */
  lemma FinishStep(w: World, s: State, t: nat, auth: Option<Transport.AuthorizationResult>, u: State)
    requires Step(w, s, Finishes(t, auth), u)
    ensures t in u.threads && u.threads[t].pc == if auth.Some? then Authorized(auth.value) else Ended(Crashed)
  {
  }

  /** Unknown and declined leave the ledger alone; an approval is recorded under the confirmed RRN. */
  lemma PostStep(w: World, s: State, t: nat, now: int, u: State)
    requires Step(w, s, Posts(t, now), u)
    ensures t in s.threads && t in u.threads && s.threads[t].pc.Authorized? && s.threads[t].rrn.Some?
    ensures var p, auth := s.threads[t].payment, s.threads[t].pc.auth;
            var rrn := if auth.rrn == "" then s.threads[t].rrn.value else auth.rrn;
            if auth.outcome.Unknown? then
              u.ledger == s.ledger && u.threads[t].pc == Posted(Body(Unknown, s.threads[t].rrn, None, None, None))
            else if auth.outcome.Declined? then
              u.ledger == s.ledger && u.threads[t].pc == Posted(Body(Declined, s.threads[t].rrn, None, auth.stan, None))
            else if rrn in s.ledger.transactions then
              && u.ledger == s.ledger
              && u.threads[t].pc ==
                 Posted(Body(Approved, Some(rrn), auth.authorizationId, auth.stan, Some(Ledger.AlreadyRecorded)))
            else if p.sender !in s.ledger.accounts || p.recipient !in s.ledger.accounts then
              u.ledger == s.ledger && u.threads[t].pc == Ended(Crashed)
            else
              && u.threads[t].pc ==
                 Posted(Body(Approved, Some(rrn), auth.authorizationId, auth.stan, Some(Ledger.Recorded)))
              && u.ledger.transactions == s.ledger.transactions[rrn := Ledger.Transaction(p.order.amountCents, now)]
              && u.ledger.entries == s.ledger.entries +
                                     [Ledger.Entry(rrn, p.sender, Ledger.Debit, p.order.amountCents),
                                      Ledger.Entry(rrn, p.recipient, Ledger.Credit, p.order.amountCents)]
  {
  }

  /** The response is stored under the key, and returned. */
  lemma StoreStep(w: World, s: State, t: nat, u: State)
    requires Step(w, s, Stores(t), u)
    ensures t in s.threads && t in u.threads && s.threads[t].pc.Posted?
    ensures u.threads[t].pc == Ended(Returned(s.threads[t].pc.body))
    ensures var key := OrderOf(s, t).idempotencyKey;
            key in s.store ==> u.store == s.store[key := s.store[key].(response := Some(s.threads[t].pc.body))]
  {
  }

  /** A call that has not ended can go on, wherever it stands. */
  lemma NeverStuck(w: World, s: State, t: nat, ksn: string, block: Option<seq<byte>>, rrn: string,
                   auth: Transport.AuthorizationResult, reading: real, now: int)
    returns (a: Action, u: State)
    requires t in s.threads && !s.threads[t].pc.Ended? && (s.threads[t].pc.Authorized? ==> s.threads[t].rrn.Some?)
    ensures Step(w, s, a, u) && !a.Crashes? && !a.Arrives?
    ensures a.t == t
  {
    hide Claim, Check, Assess, Encrypt, Send, Finish, Post, StoreResponse;
    match s.threads[t].pc {
      case Arrived => a, u := Claims(t), Claim(s, t);
      case Claimed => a, u := Checks(t), Check(w, s, t);
      case Checked => a, u := Assesses(t, reading), Assess(w, s, t, reading);
      case Cleared => a, u := Encrypts(t, ksn, block), Encrypt(s, t, ksn, block);
      case Encrypted => a, u := Sends(t, rrn), Send(s, t, rrn);
      case Sent => a, u := Finishes(t, Some(auth)), Finish(s, t, Some(auth));
      case Authorized(_) => a, u := Posts(t, now), Post(s, t, now);
      case Posted(_) => a, u := Stores(t), StoreResponse(s, t);
    }
  }
}
