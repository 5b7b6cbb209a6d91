/**
  The correlation layer (correlation/tracker.py) over the client and the switch, as a machine of small steps:
  any number of send_and_wait calls, heartbeats, and threads handing incoming messages on, with channels that
  deliver in any order or lose what they carry.

  A message is known by its draw: the n-th call of next_stan, whose text is n modulo 1,000,000. The draw is
  bookkeeping only; the machine matches on the six-digit text, as the code does.
 */
module Correlation {
  import opened Wrappers
  import opened Text
  import opened FieldCatalogue
  import opened Codec
  import opened HostSwitch
  import opened Reversal

  const STAN_MODULUS: nat := 1_000_000

  /** f"{counter:06d}" after the n-th draw. */
  function Stan(n: nat): string {
    Padded(n % STAN_MODULUS, Decimal, 6)
  }

  lemma StanText(n: nat)
    ensures |Stan(n)| == 6 && AllDigits(Stan(n)) && ParseInt(Stan(n)) == Some(n % 1_000_000)
  {
    ValueOfPadded(n % STAN_MODULUS, Decimal, 6);
    assert Capacity(Decimal, 3) == 1000 && Capacity(Decimal, 6) == 1_000_000;
    PaddedLength(n % STAN_MODULUS, Decimal, 6);
    PaddedDigits(n % STAN_MODULUS, 6);
  }

  lemma StanAgrees(n: nat, m: nat)
    ensures Stan(n) == Stan(m) <==> n % STAN_MODULUS == m % STAN_MODULUS
  {
    if Stan(n) == Stan(m) {
      PaddedInjective(n % STAN_MODULUS, m % STAN_MODULUS, Decimal, 6);
    }
  }

  // ----- the state

  datatype Owner = Request(call: nat) | Reverse(call: nat) | Network

  /** A message handed to build_message, and what the switch's parser makes of it. */
  datatype Sent = Sent(msg: Message, seen: Message)

  /** A switch answer: the code chosen, the message built, and what the client's parser makes of it. */
  datatype Answer = Answer(code: string, msg: Message, seen: Message)

  /** A parsed answer in the client's hands, and the draw of the message it answers. */
  datatype Reply = Reply(to: nat, seen: Message)

  /**
    How a call ends. SendFailed and LogFailed are both OSErrors to the caller: nothing was written, or the frame was
    and then the audit logger raised.
   */
  datatype Result = Responded(response: Option<Reply>) | TimedOut | SendFailed | LogFailed

  /** Where a send_and_wait call stands; Leaving is its finally block. */
  datatype Pc = Drawn | Registered | Waiting | Expired | Reversing | Leaving(result: Result) | Done(result: Result)

  /** response and event are the fields of the call's PendingRequest; reversal is the draw of its reversal. */
  datatype Call = Call(
    mti: string, fields: map<Element, string>, draw: nat, pc: Pc,
    response: Option<Reply>, event: bool, reversal: Option<nat>)
  {
    predicate InPending() {
      !pc.Drawn? && !pc.Done?
    }
  }

  /** A thread in _handle_incoming that has found a pending request but has not finished with it. */
  datatype Dispatch = Dispatch(call: nat, responseSet: bool)

  /** fileLogged: the client has an audit logger that writes to a file, which can raise. */
  datatype State = State(
    fileLogged: bool,
    draws: nat,
    owner: map<nat, Owner>,
    calls: map<nat, Call>,
    pending: map<string, nat>,
    written: map<nat, Sent>,       // everything ever written to the socket
    requests: set<nat>,            // of those, what the switch may still receive
    answers: map<nat, Answer>,     // everything the switch ever answered
    replies: set<nat>,             // of those, what the client may still receive
    dispatches: map<nat, Dispatch>)

  function Init(fileLogged: bool): State {
    State(fileLogged, 0, map[], map[], map[], map[], {}, map[], {}, map[])
  }

  // ----- the steps of a call

  function Outgoing(call: Call): Message {
    Message(call.mti, call.fields[11 := Stan(call.draw)])
  }

  function ReversalOf(call: Call): Message
    requires call.reversal.Some?
  {
    BuildReversal(Stan(call.reversal.value), call.mti, Stan(call.draw))
  }

  predicate At(s: State, c: nat, pc: Pc) {
    c in s.calls && s.calls[c].pc == pc
  }

  function SetCall(s: State, c: nat, call: Call): State {
    s.(calls := s.calls[c := call])
  }

  /** What the other side makes of a message that was sent; Transmit never raises on a legible one. */
  function Seen(m: Message): Message {
    match Transmit(m)
    case Some(seen) => seen
    case None => m
  }

  function Put(s: State, d: nat, m: Message): State {
    s.(written := s.written[d := Sent(m, Seen(m))], requests := s.requests + {d})
  }

  /** stan = client.next_stan() and the PendingRequest */
  function StartCall(s: State, c: nat, mti: string, fields: map<Element, string>): State
    requires c !in s.calls
  {
    var d := s.draws + 1;
    s.(draws := d, owner := s.owner[d := Request(c)],
       calls := s.calls[c := Call(mti, fields, d, Drawn, None, false, None)])
  }

  /** self._pending[stan] = pending */
  function Register(s: State, c: nat): State
    requires At(s, c, Drawn)
  {
    SetCall(s, c, s.calls[c].(pc := Registered)).(pending := s.pending[Stan(s.calls[c].draw) := c])
  }

  /** send_message succeeds; only legible messages are ever written, whatever becomes of their other elements. */
  function Write(s: State, c: nat): State
    requires At(s, c, Registered)
  {
    Put(SetCall(s, c, s.calls[c].(pc := Waiting)), s.calls[c].draw, Outgoing(s.calls[c]))
  }

  /** send_message writes the frame, and then the audit logger raises. */
  function WriteThenRaise(s: State, c: nat): State
    requires At(s, c, Registered)
  {
    Put(SetCall(s, c, s.calls[c].(pc := Leaving(LogFailed))), s.calls[c].draw, Outgoing(s.calls[c]))
  }

  /** send_message raises: not connected, not buildable, or the socket fails. */
  function FailSend(s: State, c: nat): State
    requires At(s, c, Registered)
  {
    SetCall(s, c, s.calls[c].(pc := Leaving(SendFailed)))
  }

  /** event.wait returns True and pending.response is read. */
  function Wake(s: State, c: nat): State
    requires At(s, c, Waiting) && s.calls[c].event
  {
    SetCall(s, c, s.calls[c].(pc := Leaving(Responded(s.calls[c].response))))
  }

  /** event.wait returns False. */
  function Expire(s: State, c: nat): State
    requires At(s, c, Waiting) && !s.calls[c].event
  {
    SetCall(s, c, s.calls[c].(pc := Expired))
  }

  function DrawReversal(s: State, c: nat): State
    requires At(s, c, Expired)
  {
    var d := s.draws + 1;
    SetCall(s, c, s.calls[c].(pc := Reversing, reversal := Some(d))).(draws := d, owner := s.owner[d := Reverse(c)])
  }

  predicate CanReverse(s: State, c: nat) {
    At(s, c, Reversing) && s.calls[c].reversal.Some?
  }

  function WriteReversal(s: State, c: nat): State
    requires CanReverse(s, c)
  {
    Put(SetCall(s, c, s.calls[c].(pc := Leaving(TimedOut))), s.calls[c].reversal.value, ReversalOf(s.calls[c]))
  }

  function ReverseThenRaise(s: State, c: nat): State
    requires CanReverse(s, c)
  {
    Put(SetCall(s, c, s.calls[c].(pc := Leaving(LogFailed))), s.calls[c].reversal.value, ReversalOf(s.calls[c]))
  }

  function FailReversal(s: State, c: nat): State
    requires At(s, c, Reversing)
  {
    SetCall(s, c, s.calls[c].(pc := Leaving(SendFailed)))
  }

  predicate CanLeave(s: State, c: nat) {
    c in s.calls && s.calls[c].pc.Leaving?
  }

  /** The finally block: self._pending.pop(stan, None) */
  function Leave(s: State, c: nat): State
    requires CanLeave(s, c)
  {
    SetCall(s, c, s.calls[c].(pc := Done(s.calls[c].pc.result))).(pending := s.pending - {Stan(s.calls[c].draw)})
  }

  // ----- the steps of the network

  function DrawNetwork(s: State): State {
    s.(draws := s.draws + 1, owner := s.owner[s.draws + 1 := Network])
  }

  function NetworkMessage(d: nat, code: string): Message {
    Message("0800", map[11 := Stan(d), 70 := code])
  }

  predicate CanWriteNetwork(s: State, d: nat, code: string) {
    d in s.owner && s.owner[d] == Network && d !in s.written && IsExact(Digits(3), code)
  }

  /** Sign-on, sign-off and heartbeat. */
  function WriteNetwork(s: State, d: nat, code: string): State
    requires CanWriteNetwork(s, d, code)
  {
    Put(s, d, NetworkMessage(d, code))
  }

  predicate CanRespond(s: State, d: nat, code: string) {
    d in s.requests && d in s.written && IsResponseCode(code) && Response(s.written[d].seen, code).Some?
  }

  /** The switch answers a message it received, whenever it likes. */
  function Respond(s: State, d: nat, code: string): State
    requires CanRespond(s, d, code)
  {
    var m := Response(s.written[d].seen, code).value;
    s.(requests := s.requests - {d}, answers := s.answers[d := Answer(code, m, Seen(m))], replies := s.replies + {d})
  }

  function LoseRequest(s: State, d: nat): State {
    s.(requests := s.requests - {d})
  }

  function LoseReply(s: State, d: nat): State {
    s.(replies := s.replies - {d})
  }

  predicate CanLookup(s: State, d: nat) {
    d in s.replies && d in s.answers
  }

  /** _handle_incoming up to the end of its lock; an answer nobody waits for goes downstream. */
  function Lookup(s: State, d: nat): State
    requires CanLookup(s, d)
  {
    var stan := Get(s.answers[d].seen, 11, "");
    var rest := s.(replies := s.replies - {d});
    if stan in s.pending then rest.(dispatches := s.dispatches[d := Dispatch(s.pending[stan], false)]) else rest
  }

  predicate CanDispatch(s: State, d: nat, responseSet: bool) {
    && d in s.dispatches && s.dispatches[d].responseSet == responseSet
    && s.dispatches[d].call in s.calls && d in s.answers
  }

  /** pending.response = parsed, outside the lock */
  function SetResponse(s: State, d: nat): State
    requires CanDispatch(s, d, false)
  {
    var c := s.dispatches[d].call;
    SetCall(s, c, s.calls[c].(response := Some(Reply(d, s.answers[d].seen))))
      .(dispatches := s.dispatches[d := Dispatch(c, true)])
  }

  /** pending.event.set() */
  function SetEvent(s: State, d: nat): State
    requires CanDispatch(s, d, true)
  {
    var c := s.dispatches[d].call;
    SetCall(s, c, s.calls[c].(event := true)).(dispatches := s.dispatches - {d})
  }

  // ----- the STAN window

  /** Draws whose message, or whose call, is still about. */
  predicate Live(s: State, d: nat) {
    || d in s.requests || d in s.replies || d in s.dispatches
    || exists c | c in s.calls :: s.calls[c].draw == d && !s.calls[c].pc.Done?
  }

  /** Fewer than 1,000,000 STANs have been drawn since any live one. */
  ghost predicate StanWindow(s: State) {
    forall d: nat | Live(s, d) :: s.draws < d + STAN_MODULUS
  }

  // ----- the invariant

  ghost predicate InvOwner(s: State) {
    && (forall d :: d in s.owner <==> 1 <= d <= s.draws)
    && (forall d | d in s.owner && !s.owner[d].Network? :: s.owner[d].call in s.calls)
    && (forall d | d in s.owner && s.owner[d].Request? :: s.calls[s.owner[d].call].draw == d)
    && (forall d | d in s.owner && s.owner[d].Reverse? :: s.calls[s.owner[d].call].reversal == Some(d))
  }

  predicate CallOk(s: State, c: nat)
    requires c in s.calls
  {
    var call := s.calls[c];
    && call.draw in s.owner && s.owner[call.draw] == Request(c)
    && (call.reversal.Some? ==> call.reversal.value in s.owner && s.owner[call.reversal.value] == Reverse(c))
    && (match call.pc
        case Drawn => call.draw !in s.written && call.reversal.None?
        case Registered => call.draw !in s.written && call.reversal.None?
        case Waiting => call.draw in s.written && call.reversal.None?
        case Expired => call.draw in s.written && call.reversal.None?
        case Reversing => call.draw in s.written && call.reversal.Some? && call.reversal.value !in s.written
        case Leaving(result) => ResultOk(s, c, result)
        case Done(result) => ResultOk(s, c, result))
    && (call.event ==> call.response.Some?)
    && (call.response.Some? ==> ReplyOk(s, c, call.response.value))
  }

  /** The reply is the switch's answer to the call's own message. */
  predicate ReplyOk(s: State, c: nat, reply: Reply)
    requires c in s.calls
  {
    reply.to == s.calls[c].draw && reply.to in s.answers && reply.seen == s.answers[reply.to].seen
  }

  predicate ResultOk(s: State, c: nat, result: Result)
    requires c in s.calls
  {
    var call := s.calls[c];
    match result
    case Responded(response) => response.Some? && ReplyOk(s, c, response.value) && call.reversal.None?
    case TimedOut => call.draw in s.written && call.reversal.Some? && call.reversal.value in s.written
    case SendFailed =>
      && (call.draw in s.written <==> call.reversal.Some?)
      && (call.reversal.Some? ==> call.reversal.value !in s.written)
    case LogFailed =>
      && s.fileLogged && call.draw in s.written
      && (call.reversal.Some? ==> call.reversal.value in s.written)
  }

  ghost predicate InvCalls(s: State) {
    forall c | c in s.calls :: CallOk(s, c)
  }

  ghost predicate InvPending(s: State) {
    && (forall c | c in s.calls && s.calls[c].InPending() ::
          Stan(s.calls[c].draw) in s.pending && s.pending[Stan(s.calls[c].draw)] == c)
    && (forall k | k in s.pending ::
          && s.pending[k] in s.calls
          && s.calls[s.pending[k]].InPending() && Stan(s.calls[s.pending[k]].draw) == k)
  }

  /** A written message is what its owner sends, and its STAN arrives. */
  predicate SentOk(s: State, d: nat)
    requires d in s.written
  {
    var sent := s.written[d];
    && d in s.owner
    && Legible(sent.msg) && Transmit(sent.msg) == Some(sent.seen) && Get(sent.seen, 11, "") == Stan(d)
    && match s.owner[d]
       case Request(c) => c in s.calls && sent.msg == Outgoing(s.calls[c])
       case Reverse(c) => c in s.calls && s.calls[c].reversal == Some(d) && sent.msg == ReversalOf(s.calls[c])
       case Network => sent.msg.mti == "0800"
  }

  predicate AnswerOk(s: State, d: nat)
    requires d in s.answers
  {
    && d in s.written && d !in s.requests
    && IsResponseCode(s.answers[d].code)
    && Response(s.written[d].seen, s.answers[d].code) == Some(s.answers[d].msg)
    && s.answers[d].seen == s.answers[d].msg
    && Get(s.answers[d].seen, 11, "") == Stan(d)
  }

  ghost predicate InvChannels(s: State) {
    && (forall d | d in s.written :: SentOk(s, d))
    && s.requests <= s.written.Keys
    && (forall d | d in s.answers :: AnswerOk(s, d))
    && s.replies <= s.answers.Keys
  }

  ghost predicate InvDispatches(s: State) {
    forall d | d in s.dispatches ::
      && d in s.answers && d !in s.replies && s.dispatches[d].call in s.calls && s.calls[s.dispatches[d].call].draw == d
      && (s.dispatches[d].responseSet ==> s.calls[s.dispatches[d].call].response.Some?)
  }

  ghost predicate Inv(s: State) {
    InvOwner(s) && InvCalls(s) && InvPending(s) && InvChannels(s) && InvDispatches(s)
  }

  // ----- every step keeps the invariant

  /** A legible message with a STAN in it is seen with that STAN. */
  lemma SeenStan(m: Message, d: nat)
    requires Legible(m) && m.fields[11] == Stan(d)
    ensures Transmit(m) == Some(Seen(m)) && Get(Seen(m), 11, "") == Stan(d)
  {
    hide Transmit, Stan, Answerable;
  }

  lemma SameStanSameDraw(s: State, d: nat, e: nat)
    requires StanWindow(s) && Live(s, d) && Live(s, e)
    requires d <= s.draws && e <= s.draws
    ensures Stan(d) == Stan(e) <==> d == e
  {
    StanAgrees(d, e);
  }

  predicate SameIdentity(a: Call, b: Call) {
    && b.mti == a.mti && b.fields == a.fields && b.draw == a.draw
    && (a.reversal.Some? ==> b.reversal == a.reversal)
    && (a.response.Some? ==> b.response.Some?)
  }

  /** From s to t only call c moved: draws keep their owners, calls their identity, and logs only grow, by c's doing. */
  ghost predicate Locally(s: State, t: State, c: nat) {
    && t.fileLogged == s.fileLogged
    && (forall d | d in s.owner :: d in t.owner && t.owner[d] == s.owner[d])
    && (forall e | e in s.calls :: e in t.calls && SameIdentity(s.calls[e], t.calls[e]))
    && (forall e | e in t.calls && e != c :: e in s.calls && t.calls[e] == s.calls[e])
    && (forall d | d in s.written :: d in t.written && t.written[d] == s.written[d])
    && (forall d | d in t.written && d !in s.written :: d in t.owner && (t.owner[d].Network? || t.owner[d].call == c))
    && (forall d | d in s.answers :: d in t.answers && t.answers[d] == s.answers[d])
  }

  lemma WrittenKept(s: State, t: State, c: nat)
    requires InvChannels(s) && Locally(s, t, c)
    ensures forall d | d in s.written :: SentOk(t, d)
  {
    hide Legible, Transmit, Stan, Response, BuildReversal;
    forall d | d in s.written
      ensures SentOk(t, d)
    {
      assert SentOk(s, d);
    }
  }

  lemma AnswersKept(s: State, t: State, c: nat)
    requires InvChannels(s) && Locally(s, t, c)
    requires t.requests * s.answers.Keys <= s.requests
    ensures forall d | d in s.answers :: AnswerOk(t, d)
  {
    hide Stan, Response, SentOk;
    forall d | d in s.answers
      ensures AnswerOk(t, d)
    {
      assert AnswerOk(s, d);
    }
  }

  lemma OtherCallsKept(s: State, t: State, c: nat)
    requires InvCalls(s) && Locally(s, t, c)
    ensures forall e | e in t.calls && e != c :: CallOk(t, e)
  {
    forall e | e in t.calls && e != c
      ensures CallOk(t, e)
    {
      assert CallOk(s, e);
    }
  }

  lemma OwnerKept(s: State, t: State, c: nat)
    requires InvOwner(s) && Locally(s, t, c) && t.draws == s.draws && t.owner == s.owner
    ensures InvOwner(t)
  {
    hide CallOk;
  }

  lemma OwnerDraws(s: State, t: State, c: nat, o: Owner)
    requires InvOwner(s) && Locally(s, t, c) && t.draws == s.draws + 1 && t.owner == s.owner[t.draws := o]
    requires !o.Network? ==> o.call in t.calls
    requires o.Request? ==> t.calls[o.call].draw == t.draws
    requires o.Reverse? ==> t.calls[o.call].reversal == Some(t.draws)
    ensures InvOwner(t)
  {
  }

  predicate IsPending(s: State, c: nat) {
    c in s.calls && s.calls[c].InPending()
  }

  lemma PendingKept(s: State, t: State, c: nat)
    requires InvPending(s) && Locally(s, t, c) && t.pending == s.pending
    requires IsPending(t, c) <==> IsPending(s, c)
    ensures InvPending(t)
  {
    hide Stan;
  }

  lemma DispatchesKept(s: State, t: State, c: nat)
    requires InvDispatches(s) && Locally(s, t, c) && t.dispatches == s.dispatches && t.replies <= s.replies
    ensures InvDispatches(t)
  {
  }

  /** A draw's message belongs to somebody, and the next draw is new. */
  lemma DrawsOwned(s: State)
    requires Inv(s)
    ensures forall d | d in s.written :: d in s.owner
    ensures s.draws + 1 !in s.owner && s.draws + 1 !in s.written
  {
    forall d | d in s.written
      ensures d in s.owner
    {
      assert SentOk(s, d);
    }
  }

  /** A step of call c that leaves the channels alone, once the pending map is seen to be right again. */
  lemma CallStepKeeps(s: State, t: State, c: nat)
    requires Inv(s) && Locally(s, t, c)
    requires t.written == s.written && t.answers == s.answers && t.requests <= s.requests && t.replies <= s.replies
    requires t.dispatches == s.dispatches
    requires InvOwner(t) && InvPending(t)
    requires c in t.calls ==> CallOk(t, c)
    ensures Inv(t)
  {
    hide CallOk, SentOk, AnswerOk, InvOwner, InvPending, InvDispatches, Locally, Stan;
    WrittenKept(s, t, c);
    AnswersKept(s, t, c);
    OtherCallsKept(s, t, c);
    DispatchesKept(s, t, c);
  }

  /** How a step of call c is seen to be local to it. */
  lemma MovesOnly(s: State, t: State, c: nat)
    requires c in s.calls && c in t.calls && SameIdentity(s.calls[c], t.calls[c])
    requires t == SetCall(s, c, t.calls[c]).(pending := t.pending)
    ensures Locally(s, t, c)
  {
  }

  lemma DrawsOnly(s: State, t: State, c: nat, o: Owner)
    requires c in s.calls && c in t.calls ==> SameIdentity(s.calls[c], t.calls[c])
    requires s.draws + 1 !in s.owner && c in t.calls
    requires t == SetCall(s, c, t.calls[c]).(draws := s.draws + 1, owner := s.owner[s.draws + 1 := o])
    ensures Locally(s, t, c)
  {
  }

  lemma InvParts(s: State)
    requires Inv(s)
    ensures InvOwner(s) && InvCalls(s) && InvPending(s) && InvChannels(s) && InvDispatches(s)
  {
  }

  // -- starting and ending a call

  lemma StartCallOk(s: State, c: nat, mti: string, fields: map<Element, string>)
    requires c !in s.calls && s.draws + 1 !in s.written
    ensures CallOk(StartCall(s, c, mti, fields), c)
  {
  }

  /** A step of call c that draws a STAN for owner o. */
  lemma DrawKeeps(s: State, t: State, c: nat, o: Owner)
    requires Inv(s) && c in t.calls && (c in s.calls ==> SameIdentity(s.calls[c], t.calls[c]))
    requires t == SetCall(s, c, t.calls[c]).(draws := s.draws + 1, owner := s.owner[s.draws + 1 := o])
    requires o.Network? || (o.call == c && if o.Request? then t.calls[c].draw == t.draws
                                           else t.calls[c].reversal == Some(t.draws))
    requires IsPending(t, c) <==> IsPending(s, c)
    requires CallOk(t, c)
    ensures Inv(t)
  {
    hide Inv, CallOk, InvOwner, InvPending, Locally, IsPending, SameIdentity;
    InvParts(s);
    DrawsOwned(s);
    DrawsOnly(s, t, c, o);
    OwnerDraws(s, t, c, o);
    PendingKept(s, t, c);
    CallStepKeeps(s, t, c);
  }

  lemma StartCallKeeps(s: State, c: nat, mti: string, fields: map<Element, string>)
    requires Inv(s) && c !in s.calls
    ensures Inv(StartCall(s, c, mti, fields))
  {
    hide Inv, CallOk;
    DrawsOwned(s);
    StartCallOk(s, c, mti, fields);
    DrawKeeps(s, StartCall(s, c, mti, fields), c, Request(c));
  }

  lemma LiveDrawsDiffer(s: State, c: nat, e: nat)
    requires InvOwner(s) && InvCalls(s) && StanWindow(s)
    requires c in s.calls && e in s.calls && !s.calls[c].pc.Done? && !s.calls[e].pc.Done?
    ensures Stan(s.calls[c].draw) == Stan(s.calls[e].draw) <==> c == e
  {
    assert CallOk(s, c) && CallOk(s, e);
    assert Live(s, s.calls[c].draw) && Live(s, s.calls[e].draw);
    SameStanSameDraw(s, s.calls[c].draw, s.calls[e].draw);
  }

  lemma RegisterPending(s: State, c: nat)
    requires Inv(s) && StanWindow(s) && At(s, c, Drawn)
    ensures InvPending(Register(s, c))
  {
    hide Stan, InvChannels, InvDispatches, CallOk, StanWindow, InvOwner;
    forall e | e in s.calls && !s.calls[e].pc.Done?
      ensures Stan(s.calls[c].draw) == Stan(s.calls[e].draw) <==> c == e
    {
      LiveDrawsDiffer(s, c, e);
    }
  }

  lemma RegisterKeeps(s: State, c: nat)
    requires Inv(s) && StanWindow(s) && At(s, c, Drawn)
    ensures Inv(Register(s, c))
  {
    hide Inv, ResultOk, Stan, StanWindow, InvOwner, InvPending, Locally;
    var t := Register(s, c);
    InvParts(s);
    CallIsOk(s, c);
    MovesOnly(s, t, c);
    OwnerKept(s, t, c);
    RegisterPending(s, c);
    CallStepKeeps(s, t, c);
  }

  lemma LeavePending(s: State, c: nat)
    requires InvPending(s) && CanLeave(s, c)
    ensures InvPending(Leave(s, c))
  {
    hide Stan;
  }

  lemma LeaveCallOk(s: State, c: nat)
    requires CanLeave(s, c) && CallOk(s, c)
    ensures CallOk(Leave(s, c), c)
  {
    hide Stan;
  }

  lemma LeaveKeeps(s: State, c: nat)
    requires Inv(s) && CanLeave(s, c)
    ensures Inv(Leave(s, c))
  {
    hide Inv, CallOk, Stan, InvOwner, InvPending, Locally;
    var t := Leave(s, c);
    InvParts(s);
    CallIsOk(s, c);
    LeaveCallOk(s, c);
    MovesOnly(s, t, c);
    OwnerKept(s, t, c);
    LeavePending(s, c);
    CallStepKeeps(s, t, c);
  }

  // -- steps inside a call that only move its program counter

  lemma MoveKeeps(s: State, c: nat, pc: Pc)
    requires Inv(s) && c in s.calls
    requires s.calls[c].InPending() && !pc.Drawn? && !pc.Done?
    requires CallOk(SetCall(s, c, s.calls[c].(pc := pc)), c)
    ensures Inv(SetCall(s, c, s.calls[c].(pc := pc)))
  {
    hide Inv, CallOk, InvOwner, InvPending, Locally;
    var t := SetCall(s, c, s.calls[c].(pc := pc));
    InvParts(s);
    MovesOnly(s, t, c);
    OwnerKept(s, t, c);
    PendingKept(s, t, c);
    CallStepKeeps(s, t, c);
  }

  lemma CallIsOk(s: State, c: nat)
    requires Inv(s) && c in s.calls
    ensures CallOk(s, c)
  {
  }

  lemma FailSendKeeps(s: State, c: nat)
    requires Inv(s) && At(s, c, Registered)
    ensures Inv(FailSend(s, c))
  {
    hide Inv;
    CallIsOk(s, c);
    MoveKeeps(s, c, Leaving(SendFailed));
  }

  lemma WakeKeeps(s: State, c: nat)
    requires Inv(s) && At(s, c, Waiting) && s.calls[c].event
    ensures Inv(Wake(s, c))
  {
    hide Inv;
    CallIsOk(s, c);
    MoveKeeps(s, c, Leaving(Responded(s.calls[c].response)));
  }

  lemma ExpireKeeps(s: State, c: nat)
    requires Inv(s) && At(s, c, Waiting) && !s.calls[c].event
    ensures Inv(Expire(s, c))
  {
    hide Inv;
    CallIsOk(s, c);
    MoveKeeps(s, c, Expired);
  }

  lemma FailReversalKeeps(s: State, c: nat)
    requires Inv(s) && At(s, c, Reversing)
    ensures Inv(FailReversal(s, c))
  {
    hide Inv;
    CallIsOk(s, c);
    MoveKeeps(s, c, Leaving(SendFailed));
  }

  lemma ExpiredHasNoReversal(s: State, c: nat)
    requires At(s, c, Expired) && CallOk(s, c)
    ensures s.calls[c].reversal.None?
  {
  }

  lemma DrawReversalCallOk(s: State, c: nat)
    requires At(s, c, Expired) && CallOk(s, c) && s.draws + 1 !in s.written && s.draws + 1 !in s.owner
    ensures CallOk(DrawReversal(s, c), c)
  {
  }

  lemma DrawReversalKeeps(s: State, c: nat)
    requires Inv(s) && At(s, c, Expired)
    ensures Inv(DrawReversal(s, c))
  {
    hide Inv, CallOk;
    DrawsOwned(s);
    CallIsOk(s, c);
    ExpiredHasNoReversal(s, c);
    DrawReversalCallOk(s, c);
    DrawKeeps(s, DrawReversal(s, c), c, Reverse(c));
  }

  // -- writing

  lemma AnsweredWereWritten(s: State)
    requires Inv(s)
    ensures s.answers.Keys <= s.written.Keys && s.requests <= s.written.Keys
  {
    forall d | d in s.answers
      ensures d in s.written
    {
      assert AnswerOk(s, d);
    }
  }

  lemma PutKeeps(s: State, t: State, c: nat, d: nat, m: Message)
    requires Inv(s) && Locally(s, t, c) && t.draws == s.draws && t.owner == s.owner
    requires d !in s.written && d in t.owner && (t.owner[d].Network? || t.owner[d].call == c)
    requires t.written == s.written[d := Sent(m, Seen(m))] && t.requests == s.requests + {d}
    requires t.answers == s.answers && t.replies == s.replies
    requires t.pending == s.pending && t.dispatches == s.dispatches
    requires IsPending(t, c) <==> IsPending(s, c)
    requires c in t.calls ==> CallOk(t, c)
    requires SentOk(t, d)
    ensures Inv(t)
  {
    hide CallOk, SentOk, Locally, Stan, Response, Seen, InvOwner, InvDispatches, IsPending;
    AnsweredWereWritten(s);
    OwnerKept(s, t, c);
    WrittenKept(s, t, c);
    AnswersKept(s, t, c);
    OtherCallsKept(s, t, c);
    PendingKept(s, t, c);
    DispatchesKept(s, t, c);
  }

  lemma WriteKeeps(s: State, c: nat)
    requires Inv(s) && At(s, c, Registered) && Legible(Outgoing(s.calls[c]))
    ensures Inv(Write(s, c))
  {
    hide Inv, Legible, Transmit, Stan, Seen;
    var t, d, m := Write(s, c), s.calls[c].draw, Outgoing(s.calls[c]);
    CallIsOk(s, c);
    SeenStan(m, d);
    PutKeeps(s, t, c, d, m);
  }

  lemma ReversalCarries(s: State, c: nat)
    requires Inv(s) && CanReverse(s, c)
    ensures var m, d := ReversalOf(s.calls[c]), s.calls[c].reversal.value;
            Legible(m) && 11 in m.fields && m.fields[11] == Stan(d) && Seen(m) == m && Transmit(m) == Some(m)
    ensures Reverses(ReversalOf(s.calls[c]), s.calls[c].mti, Stan(s.calls[c].draw))
  {
    hide Stan, Carried, Canonicalised, Legible, FIELD_SPECS, Response, InvOwner, InvPending, InvDispatches, AnswerOk,
         Transmit;
    var call := s.calls[c];
    assert CallOk(s, c) && SentOk(s, call.draw);
    LegibleMti(Outgoing(call));
    StanText(call.draw);
    StanText(call.reversal.value);
    assert IsExact(Digits(6), Stan(call.reversal.value));
    ReversalCarried(Stan(call.reversal.value), call.mti, Stan(call.draw));
    CarriedIsLegible(ReversalOf(call));
  }

  lemma WriteThenRaiseKeeps(s: State, c: nat)
    requires Inv(s) && At(s, c, Registered) && s.fileLogged && Legible(Outgoing(s.calls[c]))
    ensures Inv(WriteThenRaise(s, c))
  {
    hide Inv, Legible, Transmit, Stan, Seen;
    var t, d, m := WriteThenRaise(s, c), s.calls[c].draw, Outgoing(s.calls[c]);
    CallIsOk(s, c);
    SeenStan(m, d);
    PutKeeps(s, t, c, d, m);
  }

  lemma ReverseThenRaiseKeeps(s: State, c: nat)
    requires Inv(s) && CanReverse(s, c) && s.fileLogged
    ensures Inv(ReverseThenRaise(s, c))
  {
    hide Inv, Legible, Transmit, Stan, Seen, BuildReversal;
    var t, d, m := ReverseThenRaise(s, c), s.calls[c].reversal.value, ReversalOf(s.calls[c]);
    CallIsOk(s, c);
    ReversalCarries(s, c);
    PutKeeps(s, t, c, d, m);
  }

  lemma WriteReversalKeeps(s: State, c: nat)
    requires Inv(s) && CanReverse(s, c)
    ensures Inv(WriteReversal(s, c))
  {
    hide Inv, Legible, Transmit, Stan, Seen, BuildReversal;
    var t, d, m := WriteReversal(s, c), s.calls[c].reversal.value, ReversalOf(s.calls[c]);
    CallIsOk(s, c);
    ReversalCarries(s, c);
    PutKeeps(s, t, c, d, m);
  }

  // -- the network

  /** A step of the network alone: the calls stay as they are. */
  lemma NetworkKeeps(s: State, t: State)
    requires Inv(s) && t.fileLogged == s.fileLogged && t.calls == s.calls && t.pending == s.pending && InvOwner(t)
    requires forall d | d in s.owner :: d in t.owner && t.owner[d] == s.owner[d]
    requires forall d | d in s.written :: d in t.written && t.written[d] == s.written[d]
    requires forall d | d in t.written && d !in s.written :: d in t.owner && t.owner[d].Network?
    requires forall d | d in s.answers :: d in t.answers && t.answers[d] == s.answers[d]
    requires InvChannels(t) && InvDispatches(t)
    ensures Inv(t)
  {
    hide SentOk, AnswerOk, InvOwner, InvDispatches, Stan;
    forall c | c in t.calls
      ensures CallOk(t, c)
    {
      assert CallOk(s, c);
    }
  }

  lemma LocalIfCallsSame(s: State, t: State, c: nat)
    requires t.calls == s.calls && t.fileLogged == s.fileLogged
    requires forall d | d in s.owner :: d in t.owner && t.owner[d] == s.owner[d]
    requires forall d | d in s.written :: d in t.written && t.written[d] == s.written[d]
    requires forall d | d in t.written && d !in s.written :: d in t.owner && t.owner[d].Network?
    requires forall d | d in s.answers :: d in t.answers && t.answers[d] == s.answers[d]
    ensures Locally(s, t, c)
  {
  }

  lemma DrawNetworkKeeps(s: State)
    requires Inv(s)
    ensures Inv(DrawNetwork(s))
  {
    hide SentOk, AnswerOk, Stan, CallOk, Locally;
    var t := DrawNetwork(s);
    DrawsOwned(s);
    LocalIfCallsSame(s, t, 0);
    OwnerDraws(s, t, 0, Network);
    WrittenKept(s, t, 0);
    AnswersKept(s, t, 0);
    NetworkKeeps(s, t);
  }

  lemma WriteNetworkSent(s: State, d: nat, code: string)
    requires CanWriteNetwork(s, d, code)
    ensures SentOk(WriteNetwork(s, d, code), d)
  {
    hide FIELD_SPECS, Stan, Seen, Legible, Transmit;
    var m := NetworkMessage(d, code);
    StanText(d);
    PathElements();
    ExactIsCanonical(Digits(6), Stan(d));
    ExactIsCanonical(Digits(3), code);
    CarriedIsLegible(m);
    SeenStan(m, d);
  }

  lemma WriteNetworkKeeps(s: State, d: nat, code: string)
    requires Inv(s) && CanWriteNetwork(s, d, code)
    ensures Inv(WriteNetwork(s, d, code))
  {
    hide SentOk, AnswerOk, Stan, CallOk, Locally, Seen, IsExact, InvPending;
    var t := WriteNetwork(s, d, code);
    AnsweredWereWritten(s);
    LocalIfCallsSame(s, t, 0);
    OwnerKept(s, t, 0);
    WriteNetworkSent(s, d, code);
    WrittenKept(s, t, 0);
    AnswersKept(s, t, 0);
    NetworkKeeps(s, t);
  }

  lemma RespondAnswer(s: State, d: nat, code: string)
    requires InvChannels(s) && CanRespond(s, d, code)
    ensures AnswerOk(Respond(s, d, code), d)
  {
    hide Stan, Transmit, Legible, IsResponseCode, Response;
    assert SentOk(s, d);
    LegibleStan(s, d);
    AnswerArrives(s.written[d].msg, code);
  }

  lemma LegibleStan(s: State, d: nat)
    requires d in s.written && SentOk(s, d)
    ensures 11 in s.written[d].msg.fields && s.written[d].msg.fields[11] == Stan(d)
  {
    hide Stan, Transmit, Answerable;
  }

  lemma RespondKeeps(s: State, d: nat, code: string)
    requires Inv(s) && CanRespond(s, d, code)
    ensures Inv(Respond(s, d, code))
  {
    hide SentOk, AnswerOk, Stan, CallOk, Locally, Seen, IsResponseCode, Response, InvPending, InvOwner;
    var t := Respond(s, d, code);
    RequestsUnanswered(s);
    LocalIfCallsSame(s, t, 0);
    OwnerKept(s, t, 0);
    RespondAnswer(s, d, code);
    WrittenKept(s, t, 0);
    AnswersKept(s, t, 0);
    NetworkKeeps(s, t);
  }

  lemma RequestsUnanswered(s: State)
    requires Inv(s)
    ensures s.requests !! s.answers.Keys
  {
    forall d | d in s.answers
      ensures d !in s.requests
    {
      assert AnswerOk(s, d);
    }
  }

  lemma LoseKeeps(s: State, d: nat)
    requires Inv(s)
    ensures Inv(LoseRequest(s, d)) && Inv(LoseReply(s, d))
  {
    hide SentOk, AnswerOk, Stan, CallOk, Locally, InvPending, InvOwner;
    forall t | t in [LoseRequest(s, d), LoseReply(s, d)]
      ensures Inv(t)
    {
      LocalIfCallsSame(s, t, 0);
      OwnerKept(s, t, 0);
      WrittenKept(s, t, 0);
      AnswersKept(s, t, 0);
      NetworkKeeps(s, t);
    }
  }

  // -- handing an answer to its caller

  /** The pending request found under an answer's STAN is that of the call whose message it answers. */
  lemma LookupFindsCaller(s: State, d: nat)
    requires Inv(s) && StanWindow(s) && CanLookup(s, d)
    requires Get(s.answers[d].seen, 11, "") in s.pending
    ensures s.pending[Get(s.answers[d].seen, 11, "")] in s.calls
    ensures s.calls[s.pending[Get(s.answers[d].seen, 11, "")]].draw == d
  {
    hide Stan, Response, IsResponseCode, Legible, Transmit;
    var c := s.pending[Stan(d)];
    assert AnswerOk(s, d) && SentOk(s, d) && CallOk(s, c);
    assert Live(s, d) && Live(s, s.calls[c].draw);
    SameStanSameDraw(s, d, s.calls[c].draw);
  }

  lemma LookupDispatches(s: State, d: nat)
    requires Inv(s) && StanWindow(s) && CanLookup(s, d)
    ensures InvDispatches(Lookup(s, d))
  {
    hide SentOk, AnswerOk, Stan, CallOk, InvPending, InvOwner, InvCalls, StanWindow;
    if Get(s.answers[d].seen, 11, "") in s.pending {
      LookupFindsCaller(s, d);
    }
  }

  lemma LookupSame(s: State, d: nat)
    requires CanLookup(s, d)
    ensures var t := Lookup(s, d);
            && t.fileLogged == s.fileLogged && t.draws == s.draws && t.owner == s.owner && t.calls == s.calls
            && t.pending == s.pending && t.written == s.written && t.requests == s.requests && t.answers == s.answers
            && t.replies <= s.replies
  {
  }

  lemma LookupKeeps(s: State, d: nat)
    requires Inv(s) && StanWindow(s) && CanLookup(s, d)
    ensures Inv(Lookup(s, d))
  {
    hide SentOk, AnswerOk, Stan, CallOk, Locally, InvPending, InvOwner, InvCalls, InvDispatches, StanWindow, Lookup;
    var t := Lookup(s, d);
    LookupSame(s, d);
    LookupDispatches(s, d);
    LocalIfCallsSame(s, t, 0);
    OwnerKept(s, t, 0);
    WrittenKept(s, t, 0);
    AnswersKept(s, t, 0);
    NetworkKeeps(s, t);
  }

  /** A step of a dispatching thread, which touches one call's PendingRequest. */
  lemma DispatchStepKeeps(s: State, t: State, c: nat)
    requires Inv(s) && c in s.calls && c in t.calls && SameIdentity(s.calls[c], t.calls[c])
    requires t == SetCall(s, c, t.calls[c]).(dispatches := t.dispatches)
    requires t.calls[c].pc == s.calls[c].pc
    requires CallOk(t, c) && InvDispatches(t)
    ensures Inv(t)
  {
    hide CallOk, SentOk, AnswerOk, InvOwner, InvDispatches, Locally, Stan;
    assert Locally(s, t, c) by { DispatchesOnly(s, t, c); }
    OwnerKept(s, t, c);
    WrittenKept(s, t, c);
    AnswersKept(s, t, c);
    OtherCallsKept(s, t, c);
    PendingKept(s, t, c);
  }

  lemma DispatchesOnly(s: State, t: State, c: nat)
    requires c in s.calls && c in t.calls && SameIdentity(s.calls[c], t.calls[c])
    requires t == SetCall(s, c, t.calls[c]).(dispatches := t.dispatches)
    ensures Locally(s, t, c)
  {
  }

  lemma SetResponseKeeps(s: State, d: nat)
    requires Inv(s) && CanDispatch(s, d, false)
    ensures Inv(SetResponse(s, d))
  {
    hide SentOk, AnswerOk, Stan, InvPending, InvOwner, InvChannels;
    var c := s.dispatches[d].call;
    assert CallOk(s, c);
    DispatchStepKeeps(s, SetResponse(s, d), c);
  }

  lemma SetEventKeeps(s: State, d: nat)
    requires Inv(s) && CanDispatch(s, d, true)
    ensures Inv(SetEvent(s, d))
  {
    hide SentOk, AnswerOk, Stan, InvPending, InvOwner, InvChannels;
    var c := s.dispatches[d].call;
    assert CallOk(s, c);
    DispatchStepKeeps(s, SetEvent(s, d), c);
  }

  // ----- runs

  datatype Action =
    | Starts(c: nat, mti: string, fields: map<Element, string>) | Registers(c: nat) | Writes(c: nat)
    | FailsSend(c: nat) | Wakes(c: nat) | Expires(c: nat) | DrawsReversal(c: nat) | WritesReversal(c: nat)
    | FailsReversal(c: nat) | Leaves(c: nat) | WritesThenRaises(c: nat) | ReversesThenRaises(c: nat)
    | DrawsNetwork | WritesNetwork(d: nat, code: string) | Responds(d: nat, code: string)
    | LosesRequest(d: nat) | LosesReply(d: nat)
    | LooksUp(d: nat) | SetsResponse(d: nat) | SetsEvent(d: nat)

  ghost predicate Step(s: State, a: Action, t: State) {
    match a
    case Starts(c, mti, fields) => c !in s.calls && t == StartCall(s, c, mti, fields)
    case Registers(c) => At(s, c, Drawn) && t == Register(s, c)
    case Writes(c) => At(s, c, Registered) && Legible(Outgoing(s.calls[c])) && t == Write(s, c)
    case WritesThenRaises(c) =>
      s.fileLogged && At(s, c, Registered) && Legible(Outgoing(s.calls[c])) && t == WriteThenRaise(s, c)
    case ReversesThenRaises(c) => s.fileLogged && CanReverse(s, c) && t == ReverseThenRaise(s, c)
    case FailsSend(c) => At(s, c, Registered) && t == FailSend(s, c)
    case Wakes(c) => At(s, c, Waiting) && s.calls[c].event && t == Wake(s, c)
    case Expires(c) => At(s, c, Waiting) && !s.calls[c].event && t == Expire(s, c)
    case DrawsReversal(c) => At(s, c, Expired) && t == DrawReversal(s, c)
    case WritesReversal(c) => CanReverse(s, c) && t == WriteReversal(s, c)
    case FailsReversal(c) => At(s, c, Reversing) && t == FailReversal(s, c)
    case Leaves(c) => CanLeave(s, c) && t == Leave(s, c)
    case DrawsNetwork => t == DrawNetwork(s)
    case WritesNetwork(d, code) => CanWriteNetwork(s, d, code) && t == WriteNetwork(s, d, code)
    case Responds(d, code) => CanRespond(s, d, code) && t == Respond(s, d, code)
    case LosesRequest(d) => t == LoseRequest(s, d)
    case LosesReply(d) => t == LoseReply(s, d)
    case LooksUp(d) => CanLookup(s, d) && t == Lookup(s, d)
    case SetsResponse(d) => CanDispatch(s, d, false) && t == SetResponse(s, d)
    case SetsEvent(d) => CanDispatch(s, d, true) && t == SetEvent(s, d)
  }

  lemma StepKeeps(s: State, a: Action, t: State)
    requires Inv(s) && StanWindow(s) && Step(s, a, t)
    ensures Inv(t)
  {
    hide Inv, StanWindow, StartCall, Register, Write, WriteThenRaise, FailSend, Wake, Expire, DrawReversal,
         WriteReversal, ReverseThenRaise, FailReversal, Leave, DrawNetwork, WriteNetwork, Respond, LoseRequest,
         LoseReply, Lookup, SetResponse, SetEvent, At, CanReverse, CanLeave, CanWriteNetwork, CanRespond, CanLookup,
         CanDispatch, Legible;
    match a
    case Starts(c, mti, fields) => StartCallKeeps(s, c, mti, fields);
    case Registers(c) => RegisterKeeps(s, c);
    case Writes(c) => WriteKeeps(s, c);
    case WritesThenRaises(c) => WriteThenRaiseKeeps(s, c);
    case ReversesThenRaises(c) => ReverseThenRaiseKeeps(s, c);
    case FailsSend(c) => FailSendKeeps(s, c);
    case Wakes(c) => WakeKeeps(s, c);
    case Expires(c) => ExpireKeeps(s, c);
    case DrawsReversal(c) => DrawReversalKeeps(s, c);
    case WritesReversal(c) => WriteReversalKeeps(s, c);
    case FailsReversal(c) => FailReversalKeeps(s, c);
    case Leaves(c) => LeaveKeeps(s, c);
    case DrawsNetwork => DrawNetworkKeeps(s);
    case WritesNetwork(d, code) => WriteNetworkKeeps(s, d, code);
    case Responds(d, code) => RespondKeeps(s, d, code);
    case LosesRequest(d) => LoseKeeps(s, d);
    case LosesReply(d) => LoseKeeps(s, d);
    case LooksUp(d) => LookupKeeps(s, d);
    case SetsResponse(d) => SetResponseKeeps(s, d);
    case SetsEvent(d) => SetEventKeeps(s, d);
  }

  /** From s to t every call stays what it was, a finished one stays finished, and the logs only grow. */
  ghost predicate Extends(s: State, t: State) {
    && (forall c | c in s.calls :: c in t.calls && SameCall(s.calls[c], t.calls[c]))
    && (forall d | d in s.written :: d in t.written && t.written[d] == s.written[d])
    && (forall d | d in s.answers :: d in t.answers && t.answers[d] == s.answers[d])
  }

  predicate SameCall(a: Call, b: Call) {
    b.mti == a.mti && b.fields == a.fields && b.draw == a.draw && (a.pc.Done? ==> b.pc == a.pc)
  }

  lemma MoveExtends(s: State, t: State, c: nat)
    requires c in t.calls && t.calls == s.calls[c := t.calls[c]]
    requires c in s.calls ==> SameCall(s.calls[c], t.calls[c])
    requires t.answers == s.answers && t.written == s.written
    ensures Extends(s, t)
    ensures t.calls.Keys == s.calls.Keys + {c}
  {
  }

  lemma PutExtends(s: State, t: State, c: nat, d: nat)
    requires c in s.calls && c in t.calls && t.calls == s.calls[c := t.calls[c]] && SameCall(s.calls[c], t.calls[c])
    requires d !in s.written && d in t.written && t.written == s.written[d := t.written[d]]
    requires t.answers == s.answers
    ensures Extends(s, t)
    ensures t.calls.Keys == s.calls.Keys
  {
  }

  lemma NetworkExtends(s: State, t: State, d: nat)
    requires t.calls == s.calls
    requires t.written == s.written || (d !in s.written && d in t.written && t.written == s.written[d := t.written[d]])
    requires t.answers == s.answers || (d !in s.answers && d in t.answers && t.answers == s.answers[d := t.answers[d]])
    ensures Extends(s, t)
  {
  }

  lemma WriteExtends(s: State, c: nat)
    requires Inv(s) && At(s, c, Registered)
    ensures Extends(s, Write(s, c)) && Write(s, c).calls.Keys == s.calls.Keys
  {
    hide Inv, ResultOk, ReplyOk, Stan, Outgoing, Seen, Extends;
    CallIsOk(s, c);
    PutExtends(s, Write(s, c), c, s.calls[c].draw);
  }

  lemma WriteReversalExtends(s: State, c: nat)
    requires Inv(s) && CanReverse(s, c)
    ensures Extends(s, WriteReversal(s, c)) && WriteReversal(s, c).calls.Keys == s.calls.Keys
  {
    hide Inv, ResultOk, ReplyOk, Stan, ReversalOf, Seen, Extends;
    CallIsOk(s, c);
    PutExtends(s, WriteReversal(s, c), c, s.calls[c].reversal.value);
  }

  lemma WriteThenRaiseExtends(s: State, c: nat)
    requires Inv(s) && At(s, c, Registered)
    ensures Extends(s, WriteThenRaise(s, c)) && WriteThenRaise(s, c).calls.Keys == s.calls.Keys
  {
    hide Inv, ResultOk, ReplyOk, Stan, Outgoing, Seen, Extends;
    CallIsOk(s, c);
    PutExtends(s, WriteThenRaise(s, c), c, s.calls[c].draw);
  }

  lemma ReverseThenRaiseExtends(s: State, c: nat)
    requires Inv(s) && CanReverse(s, c)
    ensures Extends(s, ReverseThenRaise(s, c)) && ReverseThenRaise(s, c).calls.Keys == s.calls.Keys
  {
    hide Inv, ResultOk, ReplyOk, Stan, ReversalOf, Seen, Extends;
    CallIsOk(s, c);
    PutExtends(s, ReverseThenRaise(s, c), c, s.calls[c].reversal.value);
  }

  lemma RespondExtends(s: State, d: nat, code: string)
    requires Inv(s) && CanRespond(s, d, code)
    ensures Extends(s, Respond(s, d, code)) && Respond(s, d, code).calls.Keys == s.calls.Keys
  {
    hide Inv, IsResponseCode, Seen, Extends;
    RequestsUnanswered(s);
    NetworkExtends(s, Respond(s, d, code), d);
  }

  ghost predicate Grows(s: State, a: Action, t: State) {
    Extends(s, t) && t.calls.Keys == if a.Starts? then s.calls.Keys + {a.c} else s.calls.Keys
  }

  lemma RegistrationExtends(s: State, a: Action, t: State)
    requires Step(s, a, t)
    ensures a.Starts? || a.Registers? || a.DrawsReversal? || a.Leaves? ==> Grows(s, a, t)
  {
    hide Extends, Stan, Write, FailSend, Wake, Expire, WriteReversal, WriteThenRaise, ReverseThenRaise, FailReversal,
         DrawNetwork, WriteNetwork, Respond, LoseRequest, LoseReply, Lookup, SetResponse, SetEvent, CanWriteNetwork,
         CanRespond, CanLookup, CanDispatch, Legible, Outgoing;
    match a
    case Starts(c, _, _) => MoveExtends(s, t, c);
    case Registers(c) => MoveExtends(s, t, c);
    case DrawsReversal(c) => MoveExtends(s, t, c);
    case Leaves(c) => MoveExtends(s, t, c);
    case _ =>
  }

  lemma WaitExtends(s: State, a: Action, t: State)
    requires Step(s, a, t)
    ensures a.FailsSend? || a.Wakes? || a.Expires? || a.FailsReversal? ==> Grows(s, a, t)
  {
    hide Extends, StartCall, Register, Write, DrawReversal, WriteReversal, WriteThenRaise, ReverseThenRaise, Leave,
         CanLeave, CanReverse, DrawNetwork, WriteNetwork, Respond, LoseRequest, LoseReply, Lookup, SetResponse,
         SetEvent, CanWriteNetwork, CanRespond, CanLookup, CanDispatch, Legible, Outgoing;
    match a
    case FailsSend(c) => MoveExtends(s, t, c);
    case Wakes(c) => MoveExtends(s, t, c);
    case Expires(c) => MoveExtends(s, t, c);
    case FailsReversal(c) => MoveExtends(s, t, c);
    case _ =>
  }

  lemma LogExtends(s: State, a: Action, t: State)
    requires Inv(s) && Step(s, a, t)
    ensures a.Writes? || a.WritesReversal? || a.WritesThenRaises? || a.ReversesThenRaises? ==> Grows(s, a, t)
    ensures a.WritesNetwork? || a.Responds? ==> Grows(s, a, t)
  {
    hide Inv, Extends, Write, WriteReversal, Legible, Outgoing, CanReverse, CanRespond, NetworkMessage, IsExact, Seen;
    match a
    case Writes(c) => WriteExtends(s, c);
    case WritesThenRaises(c) => WriteThenRaiseExtends(s, c);
    case ReversesThenRaises(c) => ReverseThenRaiseExtends(s, c);
    case WritesReversal(c) => WriteReversalExtends(s, c);
    case WritesNetwork(d, code) => NetworkExtends(s, t, d);
    case Responds(d, code) => RespondExtends(s, d, code);
    case _ =>
  }

  lemma DeliveryExtends(s: State, a: Action, t: State)
    requires Step(s, a, t)
    ensures a.DrawsNetwork? || a.LosesRequest? || a.LosesReply? || a.LooksUp? || a.SetsResponse? || a.SetsEvent? ==>
              Grows(s, a, t)
  {
    hide Extends, Get, StartCall, Register, Write, FailSend, Wake, Expire, DrawReversal, WriteReversal,
         WriteThenRaise, ReverseThenRaise, FailReversal, Leave, At, CanReverse, CanLeave, WriteNetwork, Respond,
         CanWriteNetwork, CanRespond, Legible, Outgoing;
    match a
    case DrawsNetwork => NetworkExtends(s, t, 0);
    case LosesRequest(d) => NetworkExtends(s, t, d);
    case LosesReply(d) => NetworkExtends(s, t, d);
    case LooksUp(d) => NetworkExtends(s, t, d);
    case SetsResponse(d) => MoveExtends(s, t, s.dispatches[d].call);
    case SetsEvent(d) => MoveExtends(s, t, s.dispatches[d].call);
    case _ =>
  }

  /** Whatever step is taken, calls keep their identity and results, and nothing written or answered is undone. */
  lemma StepExtends(s: State, a: Action, t: State)
    requires Inv(s) && Step(s, a, t)
    ensures Grows(s, a, t)
  {
    hide Inv, Step, Grows;
    RegistrationExtends(s, a, t);
    WaitExtends(s, a, t);
    LogExtends(s, a, t);
    DeliveryExtends(s, a, t);
  }

  ghost predicate IsStep(states: seq<State>, actions: seq<Action>, i: nat)
    requires i < |actions| < |states|
  {
    StanWindow(states[i]) && Step(states[i], actions[i], states[i + 1])
  }

  /** Steps from the empty state, with the STAN window holding all along. */
  ghost predicate IsRun(states: seq<State>, actions: seq<Action>) {
    && |states| == |actions| + 1 && states[0] == Init(states[0].fileLogged)
    && forall i | 0 <= i < |actions| :: IsStep(states, actions, i)
  }

  ghost predicate Reachable(s: State) {
    exists states, actions :: IsRun(states, actions) && states[|actions|] == s
  }

  lemma {:induction false} RunKeeps(states: seq<State>, actions: seq<Action>, i: nat)
    requires IsRun(states, actions) && i <= |actions|
    ensures Inv(states[i])
  {
    hide Inv, StanWindow, Step;
    if i == 0 {
      InitOk(states[0].fileLogged);
    } else {
      RunKeeps(states, actions, i - 1);
      assert IsStep(states, actions, i - 1);
      StepKeeps(states[i - 1], actions[i - 1], states[i]);
    }
  }

  lemma InitOk(fileLogged: bool)
    ensures Inv(Init(fileLogged))
  {
  }

  lemma ReachableKeeps(s: State)
    requires Reachable(s)
    ensures Inv(s)
  {
    hide Inv, StanWindow, Step;
    var states, actions :| IsRun(states, actions) && states[|actions|] == s;
    RunKeeps(states, actions, |actions|);
  }

  /** A run goes on with any step the window allows. */
  lemma OneMore(s: State, a: Action, t: State)
    requires Reachable(s) && StanWindow(s) && Step(s, a, t)
    ensures Reachable(t)
  {
    hide StanWindow, Step;
    var states, actions :| IsRun(states, actions) && states[|actions|] == s;
    var more, done := states + [t], actions + [a];
    forall i | 0 <= i < |done|
      ensures IsStep(more, done, i)
    {
      if i < |actions| {
        assert IsStep(states, actions, i);
      }
    }
    assert IsRun(more, done);
  }

  lemma InitReachable(fileLogged: bool)
    ensures Reachable(Init(fileLogged))
  {
    assert IsRun([Init(fileLogged)], []);
  }

  // ----- going on from a state

  /** Steps from s to t, without a new call. */
  ghost predicate IsPath(s: State, states: seq<State>, actions: seq<Action>, t: State) {
    && |states| == |actions| + 1 && states[0] == s && states[|actions|] == t
    && forall i | 0 <= i < |actions| :: IsStep(states, actions, i) && !actions[i].Starts?
  }

  ghost predicate Leads(s: State, t: State) {
    exists states, actions :: IsPath(s, states, actions, t)
  }

  lemma LeadsOn(s: State, t: State, a: Action, u: State)
    requires Leads(s, t) && StanWindow(t) && Step(t, a, u) && !a.Starts?
    ensures Leads(s, u)
  {
    hide StanWindow, Step;
    var states, actions :| IsPath(s, states, actions, t);
    var more, done := states + [u], actions + [a];
    forall i | 0 <= i < |done|
      ensures IsStep(more, done, i) && !done[i].Starts?
    {
      if i < |actions| {
        assert IsStep(states, actions, i);
      }
    }
    assert IsPath(s, more, done, u);
  }

  lemma LeadsSelf(s: State)
    ensures Leads(s, s)
  {
    assert IsPath(s, [s], [], s);
  }

  lemma {:induction false} LeadsReachable(s: State, states: seq<State>, actions: seq<Action>, i: nat)
    requires Reachable(s) && |states| == |actions| + 1 && states[0] == s && i <= |actions|
    requires forall j | 0 <= j < |actions| :: IsStep(states, actions, j)
    ensures Reachable(states[i])
  {
    hide StanWindow, Step, Reachable;
    if i > 0 {
      LeadsReachable(s, states, actions, i - 1);
      assert IsStep(states, actions, i - 1);
      OneMore(states[i - 1], actions[i - 1], states[i]);
    }
  }

  lemma StillReachable(s: State, t: State)
    requires Reachable(s) && Leads(s, t)
    ensures Reachable(t)
  {
    hide Reachable, StanWindow, Step;
    var states, actions :| IsPath(s, states, actions, t);
    LeadsReachable(s, states, actions, |actions|);
  }

  // ----- what the invariant says of a call's messages

  /** What the switch saw of a call's message, and what it answered. */
  ghost predicate AnswersOwn(s: State, c: nat, seen: Message)
    requires c in s.calls && Legible(Outgoing(s.calls[c]))
  {
    var call := s.calls[c];
    && call.draw in s.written && s.written[call.draw].msg == Outgoing(call)
    && call.draw in s.answers
    && Response(Transmit(Outgoing(call)).value, s.answers[call.draw].code) == Some(seen)
  }

  /** The response to a call is there, and is what the switch answered to the message the call sent. */
  ghost predicate IsOwn(s: State, c: nat, response: Option<Reply>)
    requires c in s.calls
  {
    && response.Some? && response.value.to == s.calls[c].draw
    && Legible(Outgoing(s.calls[c])) && AnswersOwn(s, c, response.value.seen)
    && (s.calls[c].mti == "0200" ==>
          && response.value.seen.mti == "0210"
          && Get(response.value.seen, 11, "") == Stan(s.calls[c].draw)
          && Get(response.value.seen, 39, "") == s.answers[s.calls[c].draw].code)
  }

  lemma InvResponseIsOwn(s: State, c: nat, response: Option<Reply>)
    requires Inv(s) && At(s, c, Done(Responded(response)))
    ensures IsOwn(s, c, response)
  {
    hide Stan, Legible, Transmit, IsResponseCode, Response;
    var d := s.calls[c].draw;
    assert CallOk(s, c) && AnswerOk(s, d) && SentOk(s, d);
    if s.calls[c].mti == "0200" {
      FinancialResponse(Outgoing(s.calls[c]), s.answers[d].code);
    }
  }

  lemma FinancialResponse(m: Message, code: string)
    requires Legible(m) && m.mti == "0200" && Response(Transmit(m).value, code).Some?
    ensures var seen := Response(Transmit(m).value, code).value;
            seen.mti == "0210" && Get(seen, 39, "") == code
  {
    hide Transmit, Answerable;
  }

  lemma WrittenReversal(s: State, c: nat)
    requires Inv(s) && c in s.calls && s.calls[c].reversal.Some? && s.calls[c].reversal.value in s.written
    requires s.calls[c].draw in s.written
    ensures Reverses(s.written[s.calls[c].reversal.value].seen, s.calls[c].mti, Stan(s.calls[c].draw))
  {
    hide Stan, Legible, Carried, Canonicalised, FIELD_SPECS, Response, InvPending, InvDispatches, AnswerOk, Transmit;
    var call := s.calls[c];
    assert CallOk(s, c) && SentOk(s, call.draw) && SentOk(s, call.reversal.value);
    LegibleMti(Outgoing(call));
    StanText(call.draw);
    StanText(call.reversal.value);
    ReversalCarried(Stan(call.reversal.value), call.mti, Stan(call.draw));
  }

  /** A call's message, once written, is its outgoing message, and the switch sees what its parser makes of it. */
  lemma RequestSeen(s: State, c: nat)
    requires Inv(s) && c in s.calls && s.calls[c].draw in s.written
    ensures var sent := s.written[s.calls[c].draw];
            sent.msg == Outgoing(s.calls[c]) && Legible(sent.msg) && Transmit(sent.msg) == Some(sent.seen)
  {
    hide Legible, Transmit, Outgoing, Stan, InvPending, InvDispatches, ResultOk;
    assert CallOk(s, c) && SentOk(s, s.calls[c].draw);
  }

  /** The only financial messages ever written are those of calls with a financial MTI, each under the call's draw. */
  lemma FinancialIsRequest(s: State, d: nat) returns (c: nat)
    requires Inv(s) && d in s.written && s.written[d].seen.mti == "0200"
    ensures c in s.calls && s.calls[c].draw == d
  {
    hide Outgoing, Stan, InvPending, InvDispatches, InvCalls, Transmit, Answerable;
    assert SentOk(s, d);
    c := s.owner[d].call;
  }
}
