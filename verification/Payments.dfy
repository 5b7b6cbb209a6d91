/**
  Payments (api/routes/transactions.py): any number of concurrent purchase and transfer calls over the idempotency
  store, the risk gate and the ledger, each call taking its steps in order. The HSM and the transport may do here
  whatever they like: any block or exception, any RRN, any result.
 */
module Payments {
  import opened Wrappers
  import opened Bytes
  import Idempotency
  import Ledger
  import MockHsm
  import Risk
  import Transport
  import Velocity

  // ----- what the calls are about

  datatype Kind = Purchase | Transfer

  /** The body of a call, its hash, and the user the token names. */
  datatype Order = Order(
    kind: Kind, idempotencyKey: string, requestHash: string, cardNumber: string, creditTo: string, pin: string,
    amountCents: nat, entryMode: string, userId: string)

  /** The cards and accounts tables: the account of a card, the user of an account. */
  datatype Directory = Directory(cards: map<string, string>, owners: map<string, string>)

  /** fileLogged: the client's audit logger writes to a file. */
  datatype World = World(directory: Directory, config: Risk.Config, mac: MockHsm.Mac, fileLogged: bool)

  datatype Status = Approved | Declined | Unknown | Stopped(verdict: Risk.Verdict)

  datatype Body = Body(
    status: Status, rrn: Option<string>, authorizationId: Option<string>, stan: Option<string>,
    ledgerStatus: Option<Ledger.Outcome>)

  function ResolveAccount(directory: Directory, identifier: string): Option<string> {
    if identifier in directory.cards then Some(directory.cards[identifier])
    else if identifier in directory.owners then Some(identifier)
    else None
  }

  predicate Unregistered(account: Option<string>) {
    account.None? || account.value == ""
  }

  /** A transfer names whom to credit and is sent as entry mode 01; a purchase credits the demo merchant. */
  function CreditTo(o: Order): string {
    if o.kind.Transfer? then o.creditTo else "merchant:demo"
  }

  function EntryMode(o: Order): string {
    if o.kind.Transfer? then "01" else o.entryMode
  }

  // ----- the state

  datatype End = Returned(body: Body) | Refused(httpStatus: nat) | Crashed

  datatype Pc =
    | Arrived | Claimed | Checked | Cleared | Encrypted | Sent | Authorized(auth: Transport.AuthorizationResult)
    | Posted(body: Body) | Ended(end: End)

  /** What a call finds out before it turns to the switch. */
  datatype Payment = Payment(order: Order, sender: string, recipient: string, ksn: string, block: seq<byte>)

  /**
    A call of purchase or transfer: won says that it claimed its key, evaluated which evaluation of its card was its
    own, rrn what it sent to the switch.
   */
  datatype Thread = Thread(payment: Payment, pc: Pc, won: bool, evaluated: Option<nat>, rrn: Option<string>)

  /**
    winners names the call that claimed a key; attempts is the velocity tracker's; evaluations holds every evaluation of
    every card, and the logs the keys that reached authorize and record_purchase.
   */
  datatype State = State(
    store: Idempotency.Store<Body>,
    winners: map<string, nat>,
    threads: map<nat, Thread>,
    ledger: Ledger.Tables,
    attempts: map<string, seq<real>>,
    evaluations: map<string, seq<Risk.Evaluation>>,
    authorizeLog: seq<string>,
    recordLog: seq<string>)

  function Start(w: World): State {
    State(map[], map[], map[], Ledger.Tables(w.directory.owners.Keys, map[], []), map[], map[], [], [])
  }

  function Stage(pc: Pc): nat {
    match pc
    case Arrived => 0
    case Claimed => 1
    case Checked => 2
    case Cleared => 3
    case Encrypted => 4
    case Sent => 5
    case Authorized(_) => 6
    case Posted(_) => 7
    case Ended(_) => 8
  }

  function KeyOf(th: Thread): string {
    th.payment.order.idempotencyKey
  }

  // ----- the steps of a call

  predicate At(s: State, t: nat, pc: Pc) {
    t in s.threads && s.threads[t].pc == pc
  }

  function SetThread(s: State, t: nat, th: Thread): State {
    s.(threads := s.threads[t := th])
  }

  function Move(s: State, t: nat, pc: Pc): State
    requires t in s.threads
  {
    SetThread(s, t, s.threads[t].(pc := pc))
  }

  function Arrive(s: State, t: nat, order: Order): State {
    SetThread(s, t, Thread(Payment(order, "", "", "", []), Arrived, false, None, None))
  }

  /** What follows from each outcome of a claim */
  function OnOutcome(th: Thread, outcome: Idempotency.Outcome<Body>): Thread {
    match outcome
    case New => th.(pc := Claimed, won := true)
    case Duplicate(response) => th.(pc := Ended(Returned(response)))
    case Mismatch => th.(pc := Ended(Refused(400)))
    case InProgress => th.(pc := Ended(Refused(409)))
  }

  /** idempotency_store.claim */
  function Claim(s: State, t: nat): State
    requires At(s, t, Arrived)
  {
    var th := s.threads[t];
    var (store, outcome) := Idempotency.AtomicClaim(s.store, KeyOf(th), th.payment.order.requestHash);
    SetThread(s, t, OnOutcome(th, outcome))
      .(store := store, winners := if outcome.New? then s.winners[KeyOf(th) := t] else s.winners)
  }

  /** resolve_account for both parties, and _assert_owns_account */
  function OnAccounts(w: World, th: Thread): Thread {
    var sender := ResolveAccount(w.directory, th.payment.order.cardNumber);
    var recipient := ResolveAccount(w.directory, CreditTo(th.payment.order));
    if Unregistered(sender) || Unregistered(recipient) then th.(pc := Ended(Refused(404)))
    else if sender.value !in w.directory.owners || w.directory.owners[sender.value] != th.payment.order.userId then
      th.(pc := Ended(Refused(403)))
    else
      th.(pc := Checked, payment := th.payment.(sender := sender.value, recipient := recipient.value))
  }

  function Check(w: World, s: State, t: nat): State
    requires At(s, t, Claimed)
  {
    SetThread(s, t, OnAccounts(w, s.threads[t]))
  }

  /** What the tracker keeps for the card after a reading of the clock. */
  function KeptNow(w: World, s: State, card: string, now: real): seq<real> {
    Velocity.Recent(Velocity.Get(s.attempts, card) + [now], now - w.config.window)
  }

  /** risk_engine.evaluate, with the tracker's clock reading */
  function Evaluate(w: World, s: State, o: Order, now: real): Risk.Evaluation {
    var count := |KeptNow(w, s, o.cardNumber, now)|;
    var verdict := Risk.Worst(Risk.Triggered(w.config, count, o.amountCents, EntryMode(o)));
    Risk.Evaluation(now, o.amountCents, EntryMode(o), verdict)
  }

  function Assess(w: World, s: State, t: nat, now: real): State
    requires At(s, t, Checked)
  {
    var th := s.threads[t];
    var o, card := th.payment.order, th.payment.order.cardNumber;
    var e := Evaluate(w, s, o, now);
    var pc := if e.verdict.Approve? then Cleared else Posted(Body(Stopped(e.verdict), None, None, None, None));
    SetThread(s, t, th.(pc := pc, evaluated := Some(|Risk.GetRun(s.evaluations, card)|)))
      .(attempts := s.attempts[card := KeptNow(w, s, card, now)],
        evaluations := s.evaluations[card := Risk.GetRun(s.evaluations, card) + [e]])
  }

  /** hsm.encrypt_pin_block gives a serial number and a block, or raises. */
  function Encrypt(s: State, t: nat, ksn: string, block: Option<seq<byte>>): State
    requires At(s, t, Cleared)
  {
    var th := s.threads[t];
    match block
    case None => Move(s, t, Ended(Crashed))
    case Some(b) => SetThread(s, t, th.(pc := Encrypted, payment := th.payment.(ksn := ksn, block := b)))
  }

  /** transport.authorize is called. */
  function Send(s: State, t: nat, rrn: string): State
    requires At(s, t, Encrypted)
  {
    var th := s.threads[t];
    SetThread(s, t, th.(pc := Sent, rrn := Some(rrn))).(authorizeLog := s.authorizeLog + [KeyOf(th)])
  }

  /** authorize returns, or lets an exception through. */
  function Finish(s: State, t: nat, auth: Option<Transport.AuthorizationResult>): State
    requires At(s, t, Sent)
  {
    match auth
    case Some(result) => Move(s, t, Authorized(result))
    case None => Move(s, t, Ended(Crashed))
  }

  predicate CanPost(s: State, t: nat) {
    t in s.threads && s.threads[t].pc.Authorized? && s.threads[t].rrn.Some?
  }

  function ConfirmedRrn(th: Thread): string
    requires th.pc.Authorized? && th.rrn.Some?
  {
    if th.pc.auth.rrn == "" then th.rrn.value else th.pc.auth.rrn
  }

  /** The branches on auth.outcome that leave the ledger alone */
  function OnRefusal(th: Thread): Pc
    requires th.pc.Authorized? && !th.pc.auth.outcome.Approved?
  {
    if th.pc.auth.outcome.Unknown? then Posted(Body(Unknown, th.rrn, None, None, None))
    else Posted(Body(Declined, th.rrn, None, th.pc.auth.stan, None))
  }

  /** What follows from each outcome of record_purchase */
  function OnRecord(th: Thread, outcome: Ledger.Outcome): Pc
    requires th.pc.Authorized? && th.rrn.Some?
  {
    if outcome.ForeignKeyError? then Ended(Crashed)
    else Posted(Body(Approved, Some(ConfirmedRrn(th)), th.pc.auth.authorizationId, th.pc.auth.stan, Some(outcome)))
  }

  /** Only an approval reaches record_purchase. */
  function Post(s: State, t: nat, now: int): State
    requires CanPost(s, t)
  {
    var th := s.threads[t];
    if !th.pc.auth.outcome.Approved? then Move(s, t, OnRefusal(th))
    else
      var p := th.payment;
      var (ledger, outcome) :=
        Ledger.Record(s.ledger, ConfirmedRrn(th), p.sender, p.recipient, p.order.amountCents, now);
      Move(s, t, OnRecord(th, outcome)).(ledger := ledger, recordLog := s.recordLog + [KeyOf(th)])
  }

  predicate CanStore(s: State, t: nat) {
    t in s.threads && s.threads[t].pc.Posted?
  }

  /** idempotency_store.store_response, and the return */
  function StoreResponse(s: State, t: nat): State
    requires CanStore(s, t)
  {
    var th := s.threads[t];
    Move(s, t, Ended(Returned(th.pc.body))).(store := Idempotency.AtomicStore(s.store, KeyOf(th), th.pc.body))
  }

  predicate CanCrash(s: State, t: nat) {
    t in s.threads && !s.threads[t].pc.Sent? && !s.threads[t].pc.Ended?
  }

  /** Any other exception; the key stays as it is. */
  function Crash(s: State, t: nat): State
    requires CanCrash(s, t)
  {
    Move(s, t, Ended(Crashed))
  }

  // ----- runs

  datatype Action =
    | Arrives(t: nat, order: Order) | Claims(t: nat) | Checks(t: nat) | Assesses(t: nat, time: real)
    | Encrypts(t: nat, ksn: string, block: Option<seq<byte>>) | Sends(t: nat, rrn: string)
    | Finishes(t: nat, auth: Option<Transport.AuthorizationResult>) | Posts(t: nat, now: int) | Stores(t: nat)
    | Crashes(t: nat)

  ghost predicate Step(w: World, s: State, a: Action, u: State) {
    match a
    case Arrives(t, order) => t !in s.threads && u == Arrive(s, t, order)
    case Claims(t) => At(s, t, Arrived) && u == Claim(s, t)
    case Checks(t) => At(s, t, Claimed) && u == Check(w, s, t)
    case Assesses(t, time) => At(s, t, Checked) && u == Assess(w, s, t, time)
    case Encrypts(t, ksn, block) => At(s, t, Cleared) && u == Encrypt(s, t, ksn, block)
    case Sends(t, rrn) => At(s, t, Encrypted) && u == Send(s, t, rrn)
    case Finishes(t, auth) => At(s, t, Sent) && u == Finish(s, t, auth)
    case Posts(t, now) => CanPost(s, t) && u == Post(s, t, now)
    case Stores(t) => CanStore(s, t) && u == StoreResponse(s, t)
    case Crashes(t) => CanCrash(s, t) && u == Crash(s, t)
  }

  ghost predicate IsStep(w: World, states: seq<State>, actions: seq<Action>, i: nat)
    requires i < |actions| < |states|
  {
    Step(w, states[i], actions[i], states[i + 1])
  }

  /** Steps from empty stores and books. */
  ghost predicate IsRun(w: World, states: seq<State>, actions: seq<Action>) {
    && |states| == |actions| + 1 && states[0] == Start(w)
    && forall i | 0 <= i < |actions| :: IsStep(w, states, actions, i)
  }

  ghost predicate Reachable(w: World, s: State) {
    exists states, actions :: IsRun(w, states, actions) && states[|actions|] == s
  }

  // ----- the invariant of keys, logs and threads

  predicate HasSent(s: State, t: nat) {
    t in s.threads && s.threads[t].rrn.Some?
  }

  predicate Wins(s: State, t: nat)
    requires t in s.threads
  {
    KeyOf(s.threads[t]) in s.winners && s.winners[KeyOf(s.threads[t])] == t
  }

  predicate Owns(w: World, p: Payment) {
    && ResolveAccount(w.directory, p.order.cardNumber) == Some(p.sender)
    && ResolveAccount(w.directory, CreditTo(p.order)) == Some(p.recipient)
    && p.sender in w.directory.owners && w.directory.owners[p.sender] == p.order.userId
  }

  /** 400 and 409 are for those who did not claim the key, 404 for unknown parties, 403 for other people's cards. */
  predicate RefusalOk(w: World, o: Order, won: bool, httpStatus: nat) {
    var sender := ResolveAccount(w.directory, o.cardNumber);
    if !won then httpStatus == 400 || httpStatus == 409
    else if Unregistered(sender) || Unregistered(ResolveAccount(w.directory, CreditTo(o))) then httpStatus == 404
    else
      httpStatus == 403 && (sender.value in w.directory.owners ==> w.directory.owners[sender.value] != o.userId)
  }

  /** An approval has reached record_purchase, and nothing else has; what the risk gate stopped was never sent. */
  predicate BodyOk(s: State, th: Thread, body: Body) {
    && (body.status.Approved? <==> KeyOf(th) in s.recordLog)
    && (body.status.Stopped? <==> th.rrn.None?)
  }

  /** What a finished call was told about its key is what the store holds. */
  predicate AnswerOk(s: State, th: Thread, end: End) {
    match end
    case Returned(body) =>
      && KeyOf(th) in s.store
      && s.store[KeyOf(th)] == Idempotency.Claimed(th.payment.order.requestHash, Some(body))
      && (th.won ==> BodyOk(s, th, body))
    case Refused(httpStatus) =>
      && th.rrn.None?
      && (!th.won ==>
            KeyOf(th) in s.store && (httpStatus == 400 <==> s.store[KeyOf(th)].hash != th.payment.order.requestHash))
    case Crashed => true
  }

  predicate PcOk(s: State, th: Thread) {
    match th.pc
    case Sent => th.rrn.Some? && KeyOf(th) !in s.recordLog
    case Authorized(_) => th.rrn.Some? && KeyOf(th) !in s.recordLog
    case Posted(body) => BodyOk(s, th, body)
    case Ended(end) => AnswerOk(s, th, end)
    case _ => th.rrn.None? && (th.won ==> KeyOf(th) !in s.recordLog)
  }

  predicate ThreadOk(w: World, s: State, t: nat)
    requires t in s.threads
  {
    var th := s.threads[t];
    && (th.won <==> Wins(s, t))
    && (th.pc.Arrived? ==> !th.won) && (1 <= Stage(th.pc) <= 7 ==> th.won) && (th.rrn.Some? ==> th.won)
    && (2 <= Stage(th.pc) <= 7 || th.rrn.Some? ==> Owns(w, th.payment))
    && (th.pc.Ended? && th.pc.end.Refused? ==> RefusalOk(w, th.payment.order, th.won, th.pc.end.httpStatus))
    && PcOk(s, th)
  }

  ghost predicate InvThreads(w: World, s: State) {
    forall t | t in s.threads :: ThreadOk(w, s, t)
  }

  /** The winner of a key is a thread with that key, and a key with a response has a finished winner. */
  ghost predicate InvKeys(s: State) {
    && s.winners.Keys == s.store.Keys
    && (forall k | k in s.winners :: s.winners[k] in s.threads && KeyOf(s.threads[s.winners[k]]) == k)
    && (forall k | k in s.winners && k in s.store ::
          s.store[k].hash == s.threads[s.winners[k]].payment.order.requestHash)
    && (forall k | k in s.winners && k in s.store && s.store[k].response.Some? ::
          s.threads[s.winners[k]].pc == Ended(Returned(s.store[k].response.value)))
  }

  ghost predicate NoneTwice(log: seq<string>) {
    forall i, j | 0 <= i < j < |log| :: log[i] != log[j]
  }

  /** A key is in the log of authorize exactly when its winner has sent an RRN, and only then in that of record. */
  ghost predicate InvLogs(s: State) {
    && NoneTwice(s.authorizeLog) && NoneTwice(s.recordLog)
    && (forall k :: k in s.authorizeLog <==> k in s.winners && HasSent(s, s.winners[k]))
    && (forall k | k in s.recordLog :: k in s.authorizeLog && Stage(s.threads[s.winners[k]].pc) >= 7)
  }

  ghost predicate Inv(w: World, s: State) {
    InvThreads(w, s) && InvKeys(s) && InvLogs(s)
  }

  // ----- what a step of one thread leaves alone

  /** Only thread t has moved: it may have claimed its key, answered it, or reached the ledger for it. */
  ghost predicate Alone(s: State, u: State, t: nat) {
    && (forall e | e != t :: (e in u.threads <==> e in s.threads) && (e in s.threads ==> u.threads[e] == s.threads[e]))
    && (forall k | k in s.winners :: k in u.winners && u.winners[k] == s.winners[k])
    && (forall k | k in u.winners && k !in s.winners :: u.winners[k] == t)
    && (forall k | k in s.store :: k in u.store && u.store[k].hash == s.store[k].hash)
    && (forall k | k in s.store && s.store[k].response.Some? :: u.store[k] == s.store[k])
    && (forall k | k in s.recordLog :: k in u.recordLog)
    && (forall k | k in u.recordLog && k !in s.recordLog :: k in s.winners && s.winners[k] == t)
  }

  lemma OtherKept(w: World, s: State, u: State, t: nat, e: nat)
    requires Alone(s, u, t) && e != t && e in s.threads && ThreadOk(w, s, e)
    ensures ThreadOk(w, u, e)
  {
    hide RefusalOk, Owns;
  }

  lemma InvOfParts(w: World, s: State, u: State, t: nat)
    requires Inv(w, s) && Alone(s, u, t) && (t in u.threads ==> ThreadOk(w, u, t)) && InvKeys(u) && InvLogs(u)
    ensures Inv(w, u)
  {
    hide InvKeys, InvLogs, ThreadOk;
    forall e | e in u.threads
      ensures ThreadOk(w, u, e)
    {
      if e != t {
        OtherKept(w, s, u, t, e);
      }
    }
  }

  lemma ThreadIsOk(w: World, s: State, t: nat)
    requires Inv(w, s) && t in s.threads
    ensures ThreadOk(w, s, t)
  {
  }

  /** A thread gets on with its own order, keeping what it has won and sent. */
  predicate Progress(a: Thread, b: Thread) {
    && b.payment.order == a.payment.order && b.won == a.won && b.rrn == a.rrn
    && (a.rrn.Some? ==> b.payment == a.payment)
    && !a.pc.Ended? && Stage(a.pc) <= Stage(b.pc)
  }

  predicate Moved(s: State, u: State, t: nat) {
    && t in s.threads && t in u.threads && Progress(s.threads[t], u.threads[t])
    && u.threads == s.threads[t := u.threads[t]]
    && u.winners == s.winners && u.authorizeLog == s.authorizeLog
  }

  predicate Quiet(s: State, u: State, t: nat) {
    Moved(s, u, t) && u.store == s.store && u.recordLog == s.recordLog
  }

  lemma SentStays(s: State, u: State, t: nat)
    requires Moved(s, u, t)
    ensures forall e :: HasSent(u, e) <==> HasSent(s, e)
  {
  }

  lemma KeysKept(s: State, u: State, t: nat)
    requires Moved(s, u, t) && u.store == s.store && InvKeys(s)
    ensures InvKeys(u)
  {
  }

  lemma LogsKept(s: State, u: State)
    requires InvKeys(s) && InvLogs(s) && forall e :: HasSent(u, e) <==> HasSent(s, e)
    requires u.authorizeLog == s.authorizeLog && u.recordLog == s.recordLog && u.winners == s.winners
    requires forall e | e in s.threads :: e in u.threads && Stage(s.threads[e].pc) <= Stage(u.threads[e].pc)
    ensures InvLogs(u)
  {
    hide NoneTwice, Stage;
    forall k
      ensures k in u.authorizeLog <==> k in u.winners && HasSent(u, u.winners[k])
    {
      assert k in s.authorizeLog <==> k in s.winners && HasSent(s, s.winners[k]);
    }
  }

  lemma StagesKept(s: State, u: State, t: nat)
    requires Moved(s, u, t)
    ensures forall e | e in s.threads :: e in u.threads && Stage(s.threads[e].pc) <= Stage(u.threads[e].pc)
    ensures u.winners == s.winners && u.authorizeLog == s.authorizeLog && t in u.threads
  {
  }

  lemma QuietAlone(s: State, u: State, t: nat)
    requires Quiet(s, u, t)
    ensures Alone(s, u, t)
  {
  }

  lemma QuietKeeps(w: World, s: State, u: State, t: nat)
    requires Inv(w, s) && Quiet(s, u, t) && ThreadOk(w, u, t)
    ensures Inv(w, u)
  {
    hide InvThreads, InvKeys, InvLogs, ThreadOk, Alone, Moved, HasSent, Stage;
    SentStays(s, u, t);
    KeysKept(s, u, t);
    StagesKept(s, u, t);
    LogsKept(s, u);
    QuietAlone(s, u, t);
    InvOfParts(w, s, u, t);
  }

  // ----- arriving and claiming

  lemma ArrivedOk(w: World, s: State, t: nat, order: Order)
    requires InvKeys(s) && t !in s.threads
    ensures ThreadOk(w, Arrive(s, t, order), t) && Alone(s, Arrive(s, t, order), t)
  {
  }

  lemma ArrivedKeys(s: State, t: nat, order: Order)
    requires InvKeys(s) && t !in s.threads
    ensures InvKeys(Arrive(s, t, order)) && forall e :: HasSent(Arrive(s, t, order), e) <==> HasSent(s, e)
  {
  }

  lemma ArriveKeeps(w: World, s: State, t: nat, order: Order)
    requires Inv(w, s) && t !in s.threads
    ensures Inv(w, Arrive(s, t, order))
  {
    hide InvThreads, InvKeys, InvLogs, ThreadOk, Alone, HasSent;
    ArrivedOk(w, s, t, order);
    ArrivedKeys(s, t, order);
    LogsKept(s, Arrive(s, t, order));
    InvOfParts(w, s, Arrive(s, t, order), t);
  }

  predicate Free(s: State, t: nat) {
    At(s, t, Arrived) && KeyOf(s.threads[t]) !in s.store
  }

  lemma WinningOk(w: World, s: State, t: nat)
    requires InvKeys(s) && InvLogs(s) && Free(s, t) && ThreadOk(w, s, t)
    ensures ThreadOk(w, Claim(s, t), t)
  {
    hide Owns, RefusalOk, NoneTwice;
  }

  lemma WinningKeys(s: State, t: nat)
    requires InvKeys(s) && Free(s, t)
    ensures InvKeys(Claim(s, t))
  {
  }

  lemma WinningLogs(s: State, t: nat)
    requires InvKeys(s) && InvLogs(s) && Free(s, t) && !HasSent(s, t)
    ensures InvLogs(Claim(s, t))
  {
    hide NoneTwice;
    var u := Claim(s, t);
    forall k
      ensures k in u.authorizeLog <==> k in u.winners && HasSent(u, u.winners[k])
    {
      assert k in s.authorizeLog <==> k in s.winners && HasSent(s, s.winners[k]);
    }
  }

  lemma WinningAlone(s: State, t: nat)
    requires InvKeys(s) && Free(s, t)
    ensures Alone(s, Claim(s, t), t) && t in Claim(s, t).threads
  {
  }

  lemma NotYetSent(w: World, s: State, t: nat)
    requires t in s.threads && ThreadOk(w, s, t) && Stage(s.threads[t].pc) <= 4
    ensures !HasSent(s, t)
  {
    hide Owns, RefusalOk;
  }

  lemma LosingOk(w: World, s: State, t: nat)
    requires At(s, t, Arrived) && !Free(s, t) && ThreadOk(w, s, t)
    ensures Quiet(s, Claim(s, t), t) && ThreadOk(w, Claim(s, t), t)
  {
    hide Owns, ResolveAccount;
  }

  lemma ClaimKeeps(w: World, s: State, t: nat)
    requires Inv(w, s) && At(s, t, Arrived)
    ensures Inv(w, Claim(s, t))
  {
    hide InvThreads, InvKeys, InvLogs, ThreadOk, Alone, HasSent, Claim, Free, Quiet;
    ThreadIsOk(w, s, t);
    if Free(s, t) {
      NotYetSent(w, s, t);
      WinningOk(w, s, t);
      WinningKeys(s, t);
      WinningLogs(s, t);
      WinningAlone(s, t);
      InvOfParts(w, s, Claim(s, t), t);
    } else {
      LosingOk(w, s, t);
      QuietKeeps(w, s, Claim(s, t), t);
    }
  }

  // ----- steps that only move one thread

  lemma CheckOk(w: World, s: State, t: nat)
    requires At(s, t, Claimed) && ThreadOk(w, s, t)
    ensures Quiet(s, Check(w, s, t), t) && ThreadOk(w, Check(w, s, t), t)
  {
    hide ResolveAccount, CreditTo;
  }

  lemma AssessOk(w: World, s: State, t: nat, now: real)
    requires At(s, t, Checked) && ThreadOk(w, s, t)
    ensures Quiet(s, Assess(w, s, t, now), t) && ThreadOk(w, Assess(w, s, t, now), t)
  {
    hide Owns, RefusalOk, Evaluate, KeptNow;
  }

  lemma EncryptOk(w: World, s: State, t: nat, ksn: string, block: Option<seq<byte>>)
    requires At(s, t, Cleared) && ThreadOk(w, s, t)
    ensures Quiet(s, Encrypt(s, t, ksn, block), t) && ThreadOk(w, Encrypt(s, t, ksn, block), t)
  {
    hide ResolveAccount, CreditTo, RefusalOk;
  }

  lemma FinishOk(w: World, s: State, t: nat, auth: Option<Transport.AuthorizationResult>)
    requires At(s, t, Sent) && ThreadOk(w, s, t)
    ensures Quiet(s, Finish(s, t, auth), t) && ThreadOk(w, Finish(s, t, auth), t)
  {
    hide Owns, RefusalOk;
  }

  lemma CrashOk(w: World, s: State, t: nat)
    requires CanCrash(s, t) && ThreadOk(w, s, t)
    ensures Quiet(s, Crash(s, t), t) && ThreadOk(w, Crash(s, t), t)
  {
    hide Owns, RefusalOk;
  }

  lemma QuietPostOk(w: World, s: State, t: nat, now: int)
    requires CanPost(s, t) && !s.threads[t].pc.auth.outcome.Approved? && ThreadOk(w, s, t)
    ensures Quiet(s, Post(s, t, now), t) && ThreadOk(w, Post(s, t, now), t)
  {
    hide Owns, RefusalOk, Ledger.Record;
  }

  // ----- sending

  lemma SendOk(w: World, s: State, t: nat, rrn: string)
    requires At(s, t, Encrypted) && ThreadOk(w, s, t)
    ensures ThreadOk(w, Send(s, t, rrn), t) && Alone(s, Send(s, t, rrn), t)
  {
    hide Owns, RefusalOk;
  }

  lemma SendKeys(s: State, t: nat, rrn: string)
    requires At(s, t, Encrypted) && InvKeys(s)
    ensures InvKeys(Send(s, t, rrn))
  {
  }

  lemma SendSenders(s: State, t: nat, rrn: string)
    requires At(s, t, Encrypted)
    ensures forall e :: HasSent(Send(s, t, rrn), e) <==> HasSent(s, e) || e == t
  {
  }

  lemma SendLogs(s: State, t: nat, rrn: string)
    requires At(s, t, Encrypted) && InvKeys(s) && InvLogs(s) && !HasSent(s, t) && Wins(s, t)
    ensures KeyOf(s.threads[t]) !in s.authorizeLog && InvLogs(Send(s, t, rrn))
  {
    hide HasSent;
    var u, key := Send(s, t, rrn), KeyOf(s.threads[t]);
    SendSenders(s, t, rrn);
    forall k
      ensures k in u.authorizeLog <==> k in u.winners && HasSent(u, u.winners[k])
    {
      assert k in s.authorizeLog <==> k in s.winners && HasSent(s, s.winners[k]);
    }
  }

  lemma WinnerIs(w: World, s: State, t: nat)
    requires t in s.threads && ThreadOk(w, s, t) && 1 <= Stage(s.threads[t].pc) <= 7
    ensures Wins(s, t)
  {
    hide Owns, RefusalOk, PcOk;
  }

  lemma SendKeeps(w: World, s: State, t: nat, rrn: string)
    requires Inv(w, s) && At(s, t, Encrypted)
    ensures Inv(w, Send(s, t, rrn))
  {
    hide InvThreads, InvKeys, InvLogs, ThreadOk, Alone, HasSent, Wins;
    ThreadIsOk(w, s, t);
    NotYetSent(w, s, t);
    WinnerIs(w, s, t);
    SendOk(w, s, t, rrn);
    SendKeys(s, t, rrn);
    SendLogs(s, t, rrn);
    InvOfParts(w, s, Send(s, t, rrn), t);
  }

  // ----- recording and storing

  predicate CanRecord(s: State, t: nat) {
    CanPost(s, t) && s.threads[t].pc.auth.outcome.Approved?
  }

  lemma RecordMoves(s: State, t: nat, now: int)
    requires CanRecord(s, t)
    ensures Moved(s, Post(s, t, now), t) && Post(s, t, now).store == s.store
    ensures Post(s, t, now).recordLog == s.recordLog + [KeyOf(s.threads[t])]
    ensures Stage(Post(s, t, now).threads[t].pc) >= 7
  {
    hide Ledger.Record;
  }

  lemma RecordOk(w: World, s: State, t: nat, now: int)
    requires CanRecord(s, t) && ThreadOk(w, s, t)
    ensures ThreadOk(w, Post(s, t, now), t) && KeyOf(s.threads[t]) !in s.recordLog
  {
    hide Owns, RefusalOk, Ledger.Record;
  }

  lemma RecordLogs(s: State, u: State, t: nat)
    requires InvKeys(s) && InvLogs(s) && Moved(s, u, t) && HasSent(s, t) && Stage(u.threads[t].pc) >= 7 && Wins(s, t)
    requires KeyOf(s.threads[t]) !in s.recordLog && u.recordLog == s.recordLog + [KeyOf(s.threads[t])]
    ensures InvLogs(u)
  {
    SentStays(s, u, t);
    hide HasSent;
    forall k
      ensures k in u.authorizeLog <==> k in u.winners && HasSent(u, u.winners[k])
    {
      assert k in s.authorizeLog <==> k in s.winners && HasSent(s, s.winners[k]);
    }
  }

  lemma RecordAlone(s: State, u: State, t: nat)
    requires Moved(s, u, t) && u.store == s.store && Wins(s, t) && u.recordLog == s.recordLog + [KeyOf(s.threads[t])]
    ensures Alone(s, u, t)
  {
  }

  lemma PostKeeps(w: World, s: State, t: nat, now: int)
    requires Inv(w, s) && CanPost(s, t)
    ensures Inv(w, Post(s, t, now))
  {
    hide InvThreads, InvKeys, InvLogs, ThreadOk, Alone, Post, Moved, Quiet, Wins;
    ThreadIsOk(w, s, t);
    var u := Post(s, t, now);
    if CanRecord(s, t) {
      WinnerIs(w, s, t);
      RecordMoves(s, t, now);
      RecordOk(w, s, t, now);
      KeysKept(s, u, t);
      RecordLogs(s, u, t);
      RecordAlone(s, u, t);
      InvOfParts(w, s, u, t);
    } else {
      QuietPostOk(w, s, t, now);
      QuietKeeps(w, s, u, t);
    }
  }

  lemma StoreMoves(s: State, t: nat)
    requires CanStore(s, t)
    ensures Moved(s, StoreResponse(s, t), t) && StoreResponse(s, t).recordLog == s.recordLog
  {
    hide Idempotency.AtomicStore;
  }

  lemma StoreKeys(s: State, t: nat)
    requires CanStore(s, t) && InvKeys(s) && Wins(s, t)
    ensures InvKeys(StoreResponse(s, t))
  {
    var u, key := StoreResponse(s, t), KeyOf(s.threads[t]);
    assert u.winners == s.winners && u.store.Keys == s.store.Keys;
    forall k | k in u.winners
      ensures u.winners[k] in u.threads && u.threads[u.winners[k]].payment == s.threads[s.winners[k]].payment
      ensures u.store[k].hash == s.store[k].hash
      ensures k != key ==> u.store[k] == s.store[k] && u.threads[u.winners[k]] == s.threads[s.winners[k]]
    {
    }
  }

  lemma StoreOk(w: World, s: State, t: nat)
    requires CanStore(s, t) && InvKeys(s) && Wins(s, t) && ThreadOk(w, s, t)
    ensures ThreadOk(w, StoreResponse(s, t), t)
  {
    hide Owns, RefusalOk;
  }

  lemma StoreAlone(s: State, t: nat)
    requires CanStore(s, t) && InvKeys(s) && Wins(s, t)
    ensures Alone(s, StoreResponse(s, t), t)
  {
  }

  lemma StoreKeeps(w: World, s: State, t: nat)
    requires Inv(w, s) && CanStore(s, t)
    ensures Inv(w, StoreResponse(s, t))
  {
    hide InvThreads, InvKeys, InvLogs, ThreadOk, Alone, StoreResponse, Moved, Wins, HasSent, Stage;
    var u := StoreResponse(s, t);
    ThreadIsOk(w, s, t);
    PostedStage(s, t);
    WinnerIs(w, s, t);
    StoreMoves(s, t);
    SentStays(s, u, t);
    StagesKept(s, u, t);
    StoreKeys(s, t);
    LogsKept(s, u);
    StoreOk(w, s, t);
    StoreAlone(s, t);
    InvOfParts(w, s, u, t);
  }

  lemma PostedStage(s: State, t: nat)
    requires CanStore(s, t)
    ensures Stage(s.threads[t].pc) == 7
  {
  }

  // ----- every step

  lemma MoveKeeps(w: World, s: State, a: Action, u: State)
    requires Inv(w, s) && Step(w, s, a, u)
    requires a.Checks? || a.Assesses? || a.Encrypts? || a.Finishes? || a.Crashes?
    ensures Inv(w, u)
  {
    hide Inv, ThreadOk, Quiet, Check, Assess, Encrypt, Finish, Crash;
    ThreadIsOk(w, s, a.t);
    match a {
      case Checks(t) => CheckOk(w, s, t);
      case Assesses(t, time) => AssessOk(w, s, t, time);
      case Encrypts(t, ksn, block) => EncryptOk(w, s, t, ksn, block);
      case Finishes(t, auth) => FinishOk(w, s, t, auth);
      case Crashes(t) => CrashOk(w, s, t);
    }
    QuietKeeps(w, s, u, a.t);
  }

  lemma StepKeeps(w: World, s: State, a: Action, u: State)
    requires Inv(w, s) && Step(w, s, a, u)
    ensures Inv(w, u)
  {
    hide Inv, Arrive, Claim, Check, Assess, Encrypt, Send, Finish, Post, StoreResponse, Crash, At, CanPost, CanStore,
         CanCrash;
    match a
    case Arrives(t, order) => ArriveKeeps(w, s, t, order);
    case Claims(t) => ClaimKeeps(w, s, t);
    case Sends(t, rrn) => SendKeeps(w, s, t, rrn);
    case Posts(t, now) => PostKeeps(w, s, t, now);
    case Stores(t) => StoreKeeps(w, s, t);
    case _ => MoveKeeps(w, s, a, u);
  }

  lemma StartOk(w: World)
    ensures Inv(w, Start(w))
  {
  }

  lemma {:induction false} RunKeeps(w: World, states: seq<State>, actions: seq<Action>, i: nat)
    requires IsRun(w, states, actions) && i <= |actions|
    ensures Inv(w, states[i])
  {
    hide Inv, Step;
    if i == 0 {
      StartOk(w);
    } else {
      RunKeeps(w, states, actions, i - 1);
      assert IsStep(w, states, actions, i - 1);
      StepKeeps(w, states[i - 1], actions[i - 1], states[i]);
    }
  }

  lemma ReachableKeeps(w: World, s: State)
    requires Reachable(w, s)
    ensures Inv(w, s)
  {
    hide Inv, Step;
    var states, actions :| IsRun(w, states, actions) && states[|actions|] == s;
    RunKeeps(w, states, actions, |actions|);
  }

  /** A run goes on with any step. */
  lemma OneMore(w: World, s: State, a: Action, u: State)
    requires Reachable(w, s) && Step(w, s, a, u)
    ensures Reachable(w, u)
  {
    hide Step;
    var states, actions :| IsRun(w, states, actions) && states[|actions|] == s;
    var more, done := states + [u], actions + [a];
    forall i | 0 <= i < |done|
      ensures IsStep(w, more, done, i)
    {
      if i < |actions| {
        assert IsStep(w, states, actions, i);
      }
    }
    assert IsRun(w, more, done);
  }

  lemma StartReachable(w: World)
    ensures Reachable(w, Start(w))
  {
    assert IsRun(w, [Start(w)], []);
  }

  // ----- who has sent what

  /** The same threads have sent, under the same RRNs and for the same payments. */
  ghost predicate SameSenders(s: State, u: State) {
    forall e ::
      && (HasSent(u, e) <==> HasSent(s, e))
      && (HasSent(s, e) ==> u.threads[e].rrn == s.threads[e].rrn && u.threads[e].payment == s.threads[e].payment)
  }

  lemma MovedSenders(s: State, u: State, t: nat)
    requires Moved(s, u, t)
    ensures SameSenders(s, u) && u.threads == s.threads[t := u.threads[t]]
  {
  }

  lemma ArriveSenders(s: State, t: nat, order: Order)
    requires t !in s.threads
    ensures SameSenders(s, Arrive(s, t, order))
    ensures Arrive(s, t, order).threads == s.threads[t := Arrive(s, t, order).threads[t]]
  {
  }

  lemma ClaimSenders(s: State, t: nat)
    requires At(s, t, Arrived)
    ensures SameSenders(s, Claim(s, t)) && t in Claim(s, t).threads
    ensures Claim(s, t).threads == s.threads[t := Claim(s, t).threads[t]]
  {
  }

  lemma MoveSenders(w: World, s: State, a: Action, u: State)
    requires Inv(w, s) && Step(w, s, a, u) && !a.Arrives? && !a.Claims? && !a.Sends?
    ensures Moved(s, u, a.t)
  {
    hide Inv, ThreadOk, Moved, Arrive, Claim, Check, Assess, Encrypt, Send, Finish, Post, StoreResponse, Crash;
    ThreadIsOk(w, s, a.t);
    match a {
      case Checks(t) => CheckOk(w, s, t);
      case Assesses(t, time) => AssessOk(w, s, t, time);
      case Encrypts(t, ksn, block) => EncryptOk(w, s, t, ksn, block);
      case Finishes(t, auth) => FinishOk(w, s, t, auth);
      case Crashes(t) => CrashOk(w, s, t);
      case Posts(t, now) => PostMoves(w, s, t, now);
      case Stores(t) => StoreMoves(s, t);
    }
  }

  lemma PostMoves(w: World, s: State, t: nat, now: int)
    requires CanPost(s, t) && ThreadOk(w, s, t)
    ensures Moved(s, Post(s, t, now), t)
  {
    hide ThreadOk, Post, Moved;
    if CanRecord(s, t) {
      RecordMoves(s, t, now);
    } else {
      QuietPostOk(w, s, t, now);
    }
  }

  lemma ArrivesThere(s: State, t: nat, order: Order)
    ensures t in Arrive(s, t, order).threads
  {
  }

  lemma SendersStay(w: World, s: State, a: Action, u: State)
    requires Inv(w, s) && Step(w, s, a, u) && !a.Sends?
    ensures SameSenders(s, u) && a.t in u.threads && u.threads == s.threads[a.t := u.threads[a.t]]
  {
    hide Inv, SameSenders, Moved, Arrive, Claim, Check, Assess, Encrypt, Send, Finish, Post, StoreResponse, Crash;
    if a.Arrives? {
      ArriveSenders(s, a.t, a.order);
      ArrivesThere(s, a.t, a.order);
    } else if a.Claims? {
      ClaimSenders(s, a.t);
    } else {
      MoveSenders(w, s, a, u);
      MovedSenders(s, u, a.t);
    }
  }
}
