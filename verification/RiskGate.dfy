/** What the risk gate and the books guarantee in every run of payments, whatever the transport does. */
module RiskGate {
  import opened Wrappers
  import opened Bytes
  import opened Payments
  import Idempotency
  import Ledger
  import Risk
  import Transport
  import Velocity

  // ----- the books

  ghost predicate InvBooks(w: World, s: State) {
    Ledger.Valid(s.ledger) && s.ledger.accounts == w.directory.owners.Keys
  }

  lemma OnlyPostingRecords(w: World, s: State, a: Action, u: State)
    requires Step(w, s, a, u)
    ensures !a.Posts? ==> u.ledger == s.ledger
  {
    hide ResolveAccount, CreditTo, Evaluate, KeptNow, Post;
  }

  lemma PostKeepsBooks(w: World, s: State, t: nat, now: int)
    requires InvBooks(w, s) && CanPost(s, t)
    ensures InvBooks(w, Post(s, t, now))
  {
    hide Ledger.Valid;
    var p := s.threads[t].payment;
    Ledger.RecordKeepsBooks(
      s.ledger, ConfirmedRrn(s.threads[t]), p.sender, p.recipient, p.order.amountCents, now);
  }

  lemma StepKeepsBooks(w: World, s: State, a: Action, u: State)
    requires InvBooks(w, s) && Step(w, s, a, u)
    ensures InvBooks(w, u)
  {
    hide InvBooks, Post, CanPost;
    OnlyPostingRecords(w, s, a, u);
    if a.Posts? {
      PostKeepsBooks(w, s, a.t, a.now);
    } else {
      SameBooks(w, s, u);
    }
  }

  lemma SameBooks(w: World, s: State, u: State)
    requires InvBooks(w, s) && u.ledger == s.ledger
    ensures InvBooks(w, u)
  {
  }

  // ----- the gate

  /** The call has got past the risk gate. */
  predicate Passed(th: Thread) {
    3 <= Stage(th.pc) <= 6 || th.rrn.Some?
  }

  /** The risk gate's verdict in a body that is about to be stored, or was. */
  function StopOf(pc: Pc): Option<Risk.Verdict> {
    match pc
    case Posted(Body(Stopped(verdict), _, _, _, _)) => Some(verdict)
    case Ended(Returned(Body(Stopped(verdict), _, _, _, _))) => Some(verdict)
    case _ => None
  }

  /** The call was stopped itself, rather than told of another that was. */
  predicate IsStopped(th: Thread) {
    th.won && StopOf(th.pc).Some?
  }

  function RunOf(s: State, th: Thread): seq<Risk.Evaluation> {
    Risk.GetRun(s.evaluations, th.payment.order.cardNumber)
  }

  /** The call's own evaluation is in its card's run, and let it pass or stopped it. */
  predicate EvaluatedOk(s: State, th: Thread) {
    th.evaluated.Some? || Passed(th) || IsStopped(th) ==>
      && th.evaluated.Some? && th.evaluated.value < |RunOf(s, th)|
      && var e := RunOf(s, th)[th.evaluated.value];
         && e.cents == th.payment.order.amountCents && e.entryMode == EntryMode(th.payment.order)
         && (Passed(th) ==> e.verdict.Approve?)
         && (IsStopped(th) ==> !e.verdict.Approve? && StopOf(th.pc) == Some(e.verdict))
  }

  /** Every verdict is the rules' for some count; with readings in order it is for the attempts in the window. */
  ghost predicate RunOk(w: World, s: State, card: string) {
    var run := Risk.GetRun(s.evaluations, card);
    && (forall i | 0 <= i < |run| :: IsVerdict(w, run[i]))
    && (Velocity.InOrder(Risk.Times(run)) ==>
          && Risk.IsRun(w.config, run)
          && Velocity.Get(s.attempts, card) == Velocity.Kept(Risk.Times(run), w.config.window))
  }

  ghost predicate IsVerdict(w: World, e: Risk.Evaluation) {
    exists count: nat :: e.verdict == Risk.Worst(Risk.Triggered(w.config, count, e.cents, e.entryMode))
  }

  predicate SameEvaluation(a: Thread, b: Thread) {
    a.evaluated.Some? && a.evaluated == b.evaluated && a.payment.order.cardNumber == b.payment.order.cardNumber
  }

  ghost predicate InvGate(w: World, s: State) {
    && (forall t | t in s.threads :: EvaluatedOk(s, s.threads[t]))
    && (forall t, u | t in s.threads && u in s.threads && SameEvaluation(s.threads[t], s.threads[u]) :: t == u)
    && (forall card :: RunOk(w, s, card))
  }

  // ----- steps that leave the gate alone

  predicate GateStays(s: State, u: State, e: nat)
    requires e in u.threads
  {
    var b := u.threads[e];
    if e in s.threads then
      var a := s.threads[e];
      && b.payment.order == a.payment.order && b.evaluated == a.evaluated
      && (Passed(b) ==> Passed(a)) && (IsStopped(b) ==> IsStopped(a) && StopOf(a.pc) == StopOf(b.pc))
    else
      b.evaluated.None? && !Passed(b) && !IsStopped(b)
  }

  ghost predicate SameGate(s: State, u: State) {
    && u.attempts == s.attempts && u.evaluations == s.evaluations
    && forall e | e in u.threads :: GateStays(s, u, e)
  }

  lemma SameGateKeeps(w: World, s: State, u: State)
    requires InvGate(w, s) && SameGate(s, u)
    ensures InvGate(w, u)
  {
    hide IsVerdict, Passed, IsStopped;
    forall card
      ensures RunOk(w, u, card)
    {
      assert RunOk(w, s, card);
    }
    forall t | t in u.threads
      ensures EvaluatedOk(u, u.threads[t])
    {
      assert GateStays(s, u, t);
    }
    forall t, v | t in u.threads && v in u.threads && SameEvaluation(u.threads[t], u.threads[v])
      ensures t == v
    {
      assert GateStays(s, u, t) && GateStays(s, u, v);
    }
  }

  lemma OneStays(s: State, u: State, t: nat)
    requires t in u.threads && u.threads == s.threads[t := u.threads[t]]
    requires u.attempts == s.attempts && u.evaluations == s.evaluations && GateStays(s, u, t)
    ensures SameGate(s, u)
  {
    hide Passed, IsStopped;
  }

  lemma ArriveStays(s: State, t: nat, order: Order)
    requires t !in s.threads
    ensures SameGate(s, Arrive(s, t, order))
  {
    hide SameGate;
    OneStays(s, Arrive(s, t, order), t);
  }

  lemma ClaimStays(w: World, s: State, t: nat)
    requires At(s, t, Arrived) && ThreadOk(w, s, t)
    ensures SameGate(s, Claim(s, t))
  {
    hide SameGate, Owns, RefusalOk, PcOk;
    OneStays(s, Claim(s, t), t);
  }

  lemma CheckStays(w: World, s: State, t: nat)
    requires At(s, t, Claimed)
    ensures SameGate(s, Check(w, s, t))
  {
    hide SameGate, ResolveAccount, CreditTo, Unregistered;
    OneStays(s, Check(w, s, t), t);
  }

  lemma EncryptStays(s: State, t: nat, ksn: string, block: Option<seq<byte>>)
    requires At(s, t, Cleared)
    ensures SameGate(s, Encrypt(s, t, ksn, block))
  {
    hide SameGate;
    OneStays(s, Encrypt(s, t, ksn, block), t);
  }

  lemma SendStays(s: State, t: nat, rrn: string)
    requires At(s, t, Encrypted)
    ensures SameGate(s, Send(s, t, rrn))
  {
    hide SameGate;
    OneStays(s, Send(s, t, rrn), t);
  }

  lemma FinishStays(s: State, t: nat, auth: Option<Transport.AuthorizationResult>)
    requires At(s, t, Sent)
    ensures SameGate(s, Finish(s, t, auth))
  {
    hide SameGate;
    OneStays(s, Finish(s, t, auth), t);
  }

  lemma PostStays(s: State, t: nat, now: int)
    requires CanPost(s, t)
    ensures SameGate(s, Post(s, t, now))
  {
    hide SameGate, Ledger.Record;
    OneStays(s, Post(s, t, now), t);
  }

  lemma StoreStays(s: State, t: nat)
    requires CanStore(s, t)
    ensures SameGate(s, StoreResponse(s, t))
  {
    hide SameGate, Idempotency.AtomicStore;
    OneStays(s, StoreResponse(s, t), t);
  }

  lemma CrashStays(s: State, t: nat)
    requires CanCrash(s, t)
    ensures SameGate(s, Crash(s, t))
  {
    hide SameGate;
    OneStays(s, Crash(s, t), t);
  }

  // ----- the evaluation itself

  lemma EvaluatedIsVerdict(w: World, s: State, o: Order, now: real)
    ensures IsVerdict(w, Evaluate(w, s, o, now))
  {
    assert Evaluate(w, s, o, now).verdict ==
           Risk.Worst(Risk.Triggered(w.config, |KeptNow(w, s, o.cardNumber, now)|, o.amountCents, EntryMode(o)));
  }

  /** With readings in order, the tracker's count is over the card's whole history. */
  lemma EvaluationJudged(w: World, s: State, o: Order, now: real)
    requires RunOk(w, s, o.cardNumber)
    ensures var run, e := Risk.GetRun(s.evaluations, o.cardNumber), Evaluate(w, s, o, now);
            Velocity.InOrder(Risk.Times(run + [e])) ==>
              && Risk.IsRun(w.config, run + [e])
              && KeptNow(w, s, o.cardNumber, now) == Velocity.Kept(Risk.Times(run + [e]), w.config.window)
  {
    hide Risk.Triggered, Risk.Worst, Velocity.Recent, IsVerdict, Velocity.Kept;
    var run, e := Risk.GetRun(s.evaluations, o.cardNumber), Evaluate(w, s, o, now);
    var times := Risk.Times(run);
    assert Risk.Times(run + [e]) == times + [now];
    if Velocity.InOrder(times + [now]) {
      Velocity.KeptGrows(times, now, w.config.window);
      Velocity.KeptOfGrown(times, now, w.config.window);
      Risk.RunGrows(w.config, run, e);
    }
  }

  lemma AssessRuns(w: World, s: State, t: nat, now: real, card: string)
    requires At(s, t, Checked) && RunOk(w, s, card) && RunOk(w, s, s.threads[t].payment.order.cardNumber)
    ensures RunOk(w, Assess(w, s, t, now), card)
  {
    hide Velocity.InOrder, Risk.IsRun, IsVerdict, Velocity.Kept, KeptNow, Evaluate;
    var o := s.threads[t].payment.order;
    if card == o.cardNumber {
      EvaluatedIsVerdict(w, s, o, now);
      EvaluationJudged(w, s, o, now);
    }
  }

  lemma AssessEvaluated(w: World, s: State, t: nat, now: real, e: nat)
    requires At(s, t, Checked) && ThreadOk(w, s, t) && e in s.threads && EvaluatedOk(s, s.threads[e])
    ensures EvaluatedOk(Assess(w, s, t, now), Assess(w, s, t, now).threads[e])
  {
    hide Owns, RefusalOk, KeptNow, Risk.Worst, Risk.Triggered;
  }

  lemma AssessOwn(w: World, s: State, t: nat, now: real, e: nat)
    requires At(s, t, Checked) && e in s.threads && EvaluatedOk(s, s.threads[e]) && e != t
    ensures var u := Assess(w, s, t, now); u.threads[e] == s.threads[e] && !SameEvaluation(u.threads[t], u.threads[e])
  {
    hide KeptNow, Evaluate;
  }

  lemma AssessKeeps(w: World, s: State, t: nat, now: real)
    requires InvGate(w, s) && At(s, t, Checked) && ThreadOk(w, s, t)
    ensures InvGate(w, Assess(w, s, t, now))
  {
    hide EvaluatedOk, SameEvaluation, RunOk, ThreadOk, Evaluate, KeptNow;
    var u := Assess(w, s, t, now);
    forall card
      ensures RunOk(w, u, card)
    {
      assert RunOk(w, s, card) && RunOk(w, s, s.threads[t].payment.order.cardNumber);
      AssessRuns(w, s, t, now, card);
    }
    forall e | e in u.threads
      ensures EvaluatedOk(u, u.threads[e])
    {
      AssessEvaluated(w, s, t, now, e);
    }
    forall e, f | e in u.threads && f in u.threads && SameEvaluation(u.threads[e], u.threads[f])
      ensures e == f
    {
      SameEvaluationSymmetric(u.threads[e], u.threads[f]);
      if e != t {
        AssessOwn(w, s, t, now, e);
      }
      if f != t {
        AssessOwn(w, s, t, now, f);
      }
    }
  }

  lemma SameEvaluationSymmetric(a: Thread, b: Thread)
    ensures SameEvaluation(a, b) <==> SameEvaluation(b, a)
  {
  }

  // ----- every run

  lemma GateStaysOrAssesses(w: World, s: State, a: Action, u: State)
    requires Payments.Inv(w, s) && Step(w, s, a, u)
    ensures !a.Assesses? ==> SameGate(s, u)
  {
    hide Payments.Inv, SameGate, ThreadOk, Arrive, Claim, Check, Assess, Encrypt, Send, Finish, Post, StoreResponse,
         Crash, CanPost, CanStore, CanCrash;
    match a
    case Arrives(t, order) => ArriveStays(s, t, order);
    case Claims(t) =>
      ThreadIsOk(w, s, t);
      ClaimStays(w, s, t);
    case Checks(t) => CheckStays(w, s, t);
    case Encrypts(t, ksn, block) => EncryptStays(s, t, ksn, block);
    case Sends(t, rrn) => SendStays(s, t, rrn);
    case Finishes(t, auth) => FinishStays(s, t, auth);
    case Posts(t, now) => PostStays(s, t, now);
    case Stores(t) => StoreStays(s, t);
    case Crashes(t) => CrashStays(s, t);
    case _ =>
  }

  lemma StepKeepsGate(w: World, s: State, a: Action, u: State)
    requires Payments.Inv(w, s) && InvGate(w, s) && Step(w, s, a, u)
    ensures InvGate(w, u)
  {
    hide Payments.Inv, InvGate, SameGate, ThreadOk, Arrive, Claim, Check, Assess, Encrypt, Send, Finish, Post,
         StoreResponse, Crash, CanPost, CanStore, CanCrash;
    if a.Assesses? {
      ThreadIsOk(w, s, a.t);
      AssessKeeps(w, s, a.t, a.time);
    } else {
      GateStaysOrAssesses(w, s, a, u);
      SameGateKeeps(w, s, u);
    }
  }

  lemma StartOk(w: World)
    ensures InvGate(w, Start(w)) && InvBooks(w, Start(w))
  {
  }

  lemma {:induction false} RunKeepsGate(w: World, states: seq<State>, actions: seq<Action>, i: nat)
    requires IsRun(w, states, actions) && i <= |actions|
    ensures InvGate(w, states[i]) && InvBooks(w, states[i])
  {
    hide Payments.Inv, InvGate, InvBooks, Step;
    if i == 0 {
      StartOk(w);
    } else {
      RunKeepsGate(w, states, actions, i - 1);
      RunKeeps(w, states, actions, i - 1);
      assert IsStep(w, states, actions, i - 1);
      StepKeepsGate(w, states[i - 1], actions[i - 1], states[i]);
      StepKeepsBooks(w, states[i - 1], actions[i - 1], states[i]);
    }
  }

  lemma ReachableGate(w: World, s: State)
    requires Reachable(w, s)
    ensures InvGate(w, s) && InvBooks(w, s)
  {
    hide InvGate, InvBooks, Step;
    var states, actions :| IsRun(w, states, actions) && states[|actions|] == s;
    RunKeepsGate(w, states, actions, |actions|);
  }

  // ----- how much a card can send

  /** Thread t has sent a payment from the card that the gate let pass within the window. */
  predicate IsSentIn(s: State, t: nat, card: string, from: real, window: real) {
    && HasSent(s, t) && s.threads[t].payment.order.cardNumber == card
    && s.threads[t].evaluated.Some? && s.threads[t].evaluated.value < |RunOf(s, s.threads[t])|
    && from <= RunOf(s, s.threads[t])[s.threads[t].evaluated.value].time <= from + window
  }

  function SentIn(s: State, card: string, from: real, window: real): set<nat> {
    set t | t in s.threads && IsSentIn(s, t, card, from, window)
  }

  /** Those of them whose evaluation is among the card's first n. */
  ghost function SentBefore(s: State, card: string, from: real, window: real, n: nat): set<nat> {
    set t | t in SentIn(s, card, from, window) && s.threads[t].evaluated.value < n
  }

  ghost function TotalCents(s: State, threads: set<nat>): nat
    requires threads <= s.threads.Keys
  {
    if threads == {} then 0
    else
      var t :| t in threads;
      s.threads[t].payment.order.amountCents + TotalCents(s, threads - {t})
  }

  /** At most one call has evaluation n, and if one that was sent has it, it was approved. */
  lemma OneMoreSent(w: World, s: State, card: string, from: real, n: nat)
    requires InvGate(w, s) && n < |Risk.GetRun(s.evaluations, card)|
    ensures var window := w.config.window;
            var before, after := SentBefore(s, card, from, window, n), SentBefore(s, card, from, window, n + 1);
            after == before || (exists t :: after == before + {t} && IsSentIn(s, t, card, from, window))
    ensures var e := Risk.GetRun(s.evaluations, card)[n];
            SentBefore(s, card, from, w.config.window, n + 1) != SentBefore(s, card, from, w.config.window, n) ==>
              e.verdict.Approve? && from <= e.time <= from + w.config.window
  {
    hide RunOk, IsStopped;
    var window := w.config.window;
    var before, after := SentBefore(s, card, from, window, n), SentBefore(s, card, from, window, n + 1);
    if t :| t in after && t !in before {
      assert EvaluatedOk(s, s.threads[t]);
      forall u | u in after && u !in before
        ensures u == t
      {
        assert SameEvaluation(s.threads[t], s.threads[u]);
      }
      assert after == before + {t};
    } else {
      assert after == before;
    }
  }

  lemma {:induction false} SentAreApproved(w: World, s: State, card: string, from: real, n: nat)
    requires InvGate(w, s) && n <= |Risk.GetRun(s.evaluations, card)|
    ensures |SentBefore(s, card, from, w.config.window, n)| <=
            |Risk.ApprovedIn(Risk.GetRun(s.evaluations, card)[..n], from, w.config.window)|
  {
    hide InvGate, SentBefore;
    var run := Risk.GetRun(s.evaluations, card);
    if n == 0 {
      NoneBefore(s, card, from, w.config.window);
    } else {
      SentAreApproved(w, s, card, from, n - 1);
      OneMoreSent(w, s, card, from, n - 1);
      assert run[..n][..n - 1] == run[..n - 1];
    }
  }

  lemma NoneBefore(s: State, card: string, from: real, window: real)
    ensures SentBefore(s, card, from, window, 0) == {}
  {
  }

  lemma AllBefore(s: State, card: string, from: real, window: real)
    ensures SentBefore(s, card, from, window, |Risk.GetRun(s.evaluations, card)|) == SentIn(s, card, from, window)
  {
  }

  /** No risk rule on the amount objected. */
  predicate WithinLimits(w: World, o: Order) {
    && o.amountCents <= Risk.Min(w.config.amountDecline, w.config.amountReview)
    && !(EntryMode(o) == "01" && o.amountCents > w.config.manualReview)
  }

  lemma PassedWithinLimits(w: World, s: State, t: nat)
    requires InvGate(w, s) && t in s.threads && Passed(s.threads[t])
    ensures WithinLimits(w, s.threads[t].payment.order)
  {
    hide Passed, IsStopped, Risk.Worst, Risk.Triggered, Risk.Min;
    var th := s.threads[t];
    assert EvaluatedOk(s, th) && RunOk(w, s, th.payment.order.cardNumber);
    var e := RunOf(s, th)[th.evaluated.value];
    assert IsVerdict(w, e);
    var count: nat :| e.verdict == Risk.Worst(Risk.Triggered(w.config, count, e.cents, e.entryMode));
    Risk.ApprovedExact(w.config, count, e.cents, e.entryMode);
  }

  lemma {:induction false} TotalBound(s: State, threads: set<nat>, limit: nat)
    requires threads <= s.threads.Keys && forall t | t in threads :: s.threads[t].payment.order.amountCents <= limit
    ensures TotalCents(s, threads) <= |threads| * limit
    decreases |threads|
  {
    if threads != {} {
      var t :| t in threads && TotalCents(s, threads) ==
                               s.threads[t].payment.order.amountCents + TotalCents(s, threads - {t});
      TotalBound(s, threads - {t}, limit);
      Risk.Distribute(|threads - {t}|, limit);
    }
  }

  /**
    In any closed window as long as the velocity window, at most min(review, decline) payments from a card that were
    evaluated in it ever reach the transport, with a total of at most that many times min(amount review, amount decline).
   */
  lemma SentWindowBound(w: World, s: State, card: string, from: real)
    requires Reachable(w, s) && Velocity.InOrder(Risk.Times(Risk.GetRun(s.evaluations, card)))
    ensures var sent := SentIn(s, card, from, w.config.window);
            && |sent| <= Risk.Min(w.config.velocityReview, w.config.velocityDecline)
            && TotalCents(s, sent) <= |sent| * Risk.Min(w.config.amountReview, w.config.amountDecline)
  {
    hide Reachable, InvBooks, Velocity.InOrder, Risk.IsRun, Risk.ApprovedIn, Risk.Total, RunOf, EvaluatedOk;
    ReachableGate(w, s);
    var run, window := Risk.GetRun(s.evaluations, card), w.config.window;
    var sent := SentIn(s, card, from, window);
    assert RunOk(w, s, card) && run[..|run|] == run;
    SentAreApproved(w, s, card, from, |run|);
    AllBefore(s, card, from, window);
    Risk.WindowBound(w.config, run, from);
    forall t | t in sent
      ensures s.threads[t].payment.order.amountCents <= Risk.Min(w.config.amountReview, w.config.amountDecline)
    {
      PassedWithinLimits(w, s, t);
    }
    TotalBound(s, sent, Risk.Min(w.config.amountReview, w.config.amountDecline));
  }
}
