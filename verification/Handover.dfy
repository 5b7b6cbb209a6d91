/**
  No answer is dropped on the way to its caller (correlation/tracker.py:45-73), no call is ever stuck, and an answer that
  has arrived can always be handed over.
 */
module Handover {
  import opened Wrappers
  import opened FieldCatalogue
  import opened Codec
  import opened HostSwitch
  import Reversal
  import Text
  import opened Correlation

  // ----- the answer to a waiting call, step by step

  /** Received; found to be for the call; response set; event set. */
  datatype Phase = Received | Matched | ResponseSet | EventSet | Nowhere

  /** Where the answer to a call is, on the client's side. */
  function PhaseOf(s: State, c: nat): Phase
    requires c in s.calls
  {
    var d := s.calls[c].draw;
    if s.calls[c].event then EventSet
    else if d in s.dispatches then if s.dispatches[d].responseSet then ResponseSet else Matched
    else if d in s.replies then Received
    else Nowhere
  }

  /** What the next phase is after a step, for a call that goes on waiting. */
  function PhaseAfter(s: State, c: nat, a: Action): Phase
    requires c in s.calls
  {
    var d := s.calls[c].draw;
    match PhaseOf(s, c)
    case Received => if a == LooksUp(d) then Matched else if a == LosesReply(d) then Nowhere else Received
    case Matched => if a == SetsResponse(d) then ResponseSet else Matched
    case ResponseSet => if a == SetsEvent(d) then EventSet else ResponseSet
    case EventSet => EventSet
    case Nowhere => if a.Responds? && a.d == d then Received else Nowhere
  }

  /** A lookup takes the reply, and finds a pending request exactly when the answer's STAN is pending. */
  lemma LookupExact(s: State, d: nat, t: State)
    requires Step(s, LooksUp(d), t)
    ensures d in s.replies && d in s.answers && t.replies == s.replies - {d}
    ensures var stan := Get(s.answers[d].seen, 11, "");
            t.dispatches ==
            if stan in s.pending then s.dispatches[d := Dispatch(s.pending[stan], false)] else s.dispatches
    ensures t.calls == s.calls && t.pending == s.pending && t.answers == s.answers && t.draws == s.draws
    ensures t.requests == s.requests
  {
    hide Get;
  }

  /** A waiting call's dispatch is the call's own, and nobody else's. */
  lemma OwnDispatch(s: State, c: nat, d: nat)
    requires Inv(s) && c in s.calls && d in s.dispatches
    ensures s.dispatches[d].call == c <==> s.calls[c].draw == d
  {
    hide CallOk, InvPending, InvChannels;
    assert CallIdentity(s, c) && CallIdentity(s, s.dispatches[d].call) by {
      CallOwns(s, c);
      CallOwns(s, s.dispatches[d].call);
    }
  }

  predicate CallIdentity(s: State, c: nat) {
    c in s.calls && s.calls[c].draw in s.owner && s.owner[s.calls[c].draw] == Request(c)
  }

  lemma CallOwns(s: State, c: nat)
    requires Inv(s) && c in s.calls
    ensures CallIdentity(s, c)
  {
    hide InvOwner, InvPending, InvChannels, InvDispatches, ResultOk, ReplyOk;
    assert CallOk(s, c);
  }

  lemma LookupPhase(s: State, c: nat, d: nat, t: State)
    requires Inv(s) && StanWindow(s) && At(s, c, Waiting) && Step(s, LooksUp(d), t)
    ensures At(t, c, Waiting) && PhaseOf(t, c) == PhaseAfter(s, c, LooksUp(d))
  {
    hide Inv, Step, StanWindow, Stan, AnswerOk;
    LookupExact(s, d, t);
    NotMatchedYet(s, d);
    if d == s.calls[c].draw {
      AnswerPending(s, c);
    }
  }

  lemma NotMatchedYet(s: State, d: nat)
    requires Inv(s) && d in s.replies
    ensures d !in s.dispatches
  {
    hide InvOwner, InvCalls, InvPending, InvChannels;
  }

  /** The STAN of the answer to a waiting call is pending, and it has not been matched before. */
  lemma AnswerPending(s: State, c: nat)
    requires Inv(s) && At(s, c, Waiting) && s.calls[c].draw in s.answers
    ensures var stan := Get(s.answers[s.calls[c].draw].seen, 11, ""); stan in s.pending && s.pending[stan] == c
  {
    hide InvOwner, InvCalls, InvDispatches, Stan, SentOk, Response, IsResponseCode;
    assert AnswerOk(s, s.calls[c].draw) && s.calls[c].InPending();
  }

  lemma ResponsePhase(s: State, c: nat, d: nat, t: State)
    requires Inv(s) && At(s, c, Waiting) && Step(s, SetsResponse(d), t)
    ensures At(t, c, Waiting) && PhaseOf(t, c) == PhaseAfter(s, c, SetsResponse(d))
  {
    hide Inv;
    OwnDispatch(s, c, d);
  }

  lemma EventPhase(s: State, c: nat, d: nat, t: State)
    requires Inv(s) && At(s, c, Waiting) && Step(s, SetsEvent(d), t)
    ensures At(t, c, Waiting) && PhaseOf(t, c) == PhaseAfter(s, c, SetsEvent(d))
  {
    hide Inv;
    OwnDispatch(s, c, d);
  }

  /** A step that leaves alone the replies, the dispatches and the waiting call. */
  lemma PhaseStays(s: State, t: State, c: nat)
    requires c in s.calls && c in t.calls && t.replies == s.replies && t.dispatches == s.dispatches
    requires t.calls[c].draw == s.calls[c].draw && t.calls[c].event == s.calls[c].event
    ensures PhaseOf(t, c) == PhaseOf(s, c)
  {
  }

  lemma CallPhase(s: State, c: nat, a: Action, t: State)
    requires At(s, c, Waiting) && At(t, c, Waiting) && Step(s, a, t)
    requires a.Starts? || a.Registers? || a.Writes? || a.FailsSend? || a.Wakes? || a.Expires? || a.DrawsReversal?
             || a.WritesThenRaises?
    ensures PhaseOf(t, c) == PhaseAfter(s, c, a)
  {
    hide Seen, Outgoing, Stan, Legible;
    PhaseStays(s, t, c);
  }

  lemma ReversalPhase(s: State, c: nat, a: Action, t: State)
    requires At(s, c, Waiting) && At(t, c, Waiting) && Step(s, a, t)
    requires a.WritesReversal? || a.FailsReversal? || a.ReversesThenRaises?
    ensures PhaseOf(t, c) == PhaseAfter(s, c, a)
  {
    hide Seen, ReversalOf, Stan;
    PhaseStays(s, t, c);
  }

  lemma QuietPhase(s: State, c: nat, a: Action, t: State)
    requires At(s, c, Waiting) && At(t, c, Waiting) && Step(s, a, t)
    requires a.Leaves? || a.DrawsNetwork? || a.WritesNetwork? || a.LosesRequest?
    ensures PhaseOf(t, c) == PhaseAfter(s, c, a)
  {
    hide Seen, Stan, NetworkMessage, IsExact, PhaseOf;
    PhaseStays(s, t, c);
    OnlyAnswersMove(s, c, a);
  }

  lemma OnlyAnswersMove(s: State, c: nat, a: Action)
    requires c in s.calls
    requires a.Leaves? || a.DrawsNetwork? || a.WritesNetwork? || a.LosesRequest?
    ensures PhaseAfter(s, c, a) == PhaseOf(s, c)
  {
  }

  lemma ReplyPhase(s: State, c: nat, a: Action, t: State)
    requires Inv(s) && At(s, c, Waiting) && At(t, c, Waiting) && Step(s, a, t)
    requires a.Responds? || a.LosesReply?
    ensures PhaseOf(t, c) == PhaseAfter(s, c, a)
  {
    hide Inv, Seen, IsResponseCode, Response;
    if PhaseOf(s, c) != Nowhere {
      InHandIsAnswered(s, c);
    }
    RequestsUnanswered(s);
  }

  /** What is on its way to a waiting call is the switch's answer to it, which the switch gives once. */
  lemma InHandIsAnswered(s: State, c: nat)
    requires Inv(s) && At(s, c, Waiting) && PhaseOf(s, c) != Nowhere
    ensures s.calls[c].draw in s.answers
  {
    hide InvOwner, InvPending, SentOk, AnswerOk, Stan;
    assert CallOk(s, c);
  }

  /**
    Whatever happens, for as long as a call waits the answer to it moves on only as it should: received, matched,
    response set, event set; and only a reply that is lost before it is looked up never gets there.
   */
  lemma PhaseExact(s: State, c: nat, a: Action, t: State)
    requires Inv(s) && StanWindow(s) && At(s, c, Waiting) && At(t, c, Waiting) && Step(s, a, t)
    ensures PhaseOf(t, c) == PhaseAfter(s, c, a)
  {
    hide Inv, StanWindow, Step, PhaseOf, PhaseAfter, At;
    match a
    case LooksUp(d) => LookupPhase(s, c, d, t);
    case SetsResponse(d) => ResponsePhase(s, c, d, t);
    case SetsEvent(d) => EventPhase(s, c, d, t);
    case Responds(_, _) => ReplyPhase(s, c, a, t);
    case LosesReply(_) => ReplyPhase(s, c, a, t);
    case WritesReversal(_) => ReversalPhase(s, c, a, t);
    case FailsReversal(_) => ReversalPhase(s, c, a, t);
    case ReversesThenRaises(_) => ReversalPhase(s, c, a, t);
    case Leaves(_) => QuietPhase(s, c, a, t);
    case DrawsNetwork => QuietPhase(s, c, a, t);
    case WritesNetwork(_, _) => QuietPhase(s, c, a, t);
    case LosesRequest(_) => QuietPhase(s, c, a, t);
    case _ => CallPhase(s, c, a, t);
  }

  // ----- what the caller gets

  /** With its event set a waiting call holds the switch's answer; waking returns that, and it can no longer expire. */
  lemma WakesWithAnswer(s: State, c: nat)
    requires Inv(s) && At(s, c, Waiting) && s.calls[c].event
    ensures s.calls[c].draw in s.answers
    ensures s.calls[c].response == Some(Reply(s.calls[c].draw, s.answers[s.calls[c].draw].seen))
    ensures forall t | Step(s, Wakes(c), t) :: At(t, c, Leaving(Responded(s.calls[c].response)))
    ensures exists t :: Step(s, Wakes(c), t)
    ensures forall t :: !Step(s, Expires(c), t)
  {
    hide InvOwner, InvPending, InvChannels, InvDispatches, Stan;
    assert CallOk(s, c);
    assert Step(s, Wakes(c), Wake(s, c));
  }

  /** Leaving returns or raises what the call has come to, and its STAN is no longer pending. */
  lemma LeavesWithResult(s: State, c: nat, t: State)
    requires Step(s, Leaves(c), t)
    ensures c in s.calls && s.calls[c].pc.Leaving? && At(t, c, Done(s.calls[c].pc.result))
    ensures t.pending == s.pending - {Stan(s.calls[c].draw)}
  {
    hide Stan;
  }

  // ----- whom a step is about

  /** A call starts with a STAN drawn for it alone, and with nothing received. */
  lemma StartExact(s: State, c: nat, mti: string, fields: map<Element, string>, t: State)
    requires Step(s, Starts(c, mti, fields), t)
    ensures t.draws == s.draws + 1 && t.calls.Keys == s.calls.Keys + {c}
    ensures t.calls[c].mti == mti && t.calls[c].fields == fields && t.calls[c].draw == s.draws + 1
    ensures t.calls[c].pc == Drawn && t.calls[c].response.None? && !t.calls[c].event && t.calls[c].reversal.None?
    ensures t.pending == s.pending && t.written == s.written && t.requests == s.requests && t.replies == s.replies
  {
  }

  predicate Concerns(s: State, a: Action, c: nat) {
    match a
    case Starts(e, _, _) => e == c
    case Registers(e) => e == c
    case Writes(e) => e == c
    case FailsSend(e) => e == c
    case Wakes(e) => e == c
    case Expires(e) => e == c
    case DrawsReversal(e) => e == c
    case WritesReversal(e) => e == c
    case FailsReversal(e) => e == c
    case Leaves(e) => e == c
    case WritesThenRaises(e) => e == c
    case ReversesThenRaises(e) => e == c
    case SetsResponse(d) => d in s.dispatches && s.dispatches[d].call == c
    case SetsEvent(d) => d in s.dispatches && s.dispatches[d].call == c
    case _ => false
  }

  /** A step that is not about a call leaves it as it is. */
  lemma OthersUntouched(s: State, a: Action, t: State, c: nat)
    requires Step(s, a, t) && c in s.calls && !Concerns(s, a, c)
    ensures c in t.calls && t.calls[c] == s.calls[c]
  {
    hide Stan, Seen, Legible, Outgoing, ReversalOf, NetworkMessage, Response, IsResponseCode, IsExact, Get;
  }

  // ----- what is written, and when

  /** A send writes the call's message under the STAN it has drawn, whether or not the logger then raises, or nothing. */
  lemma SendExact(s: State, c: nat, a: Action, t: State)
    requires Step(s, a, t) && (a == Writes(c) || a == WritesThenRaises(c) || a == FailsSend(c))
    ensures c in s.calls && c in t.calls
    ensures var call := s.calls[c];
            var m := Message(call.mti, call.fields[11 := Stan(call.draw)]);
            if a == FailsSend(c) then
              t.calls[c].pc == Leaving(SendFailed) && t.written == s.written && t.requests == s.requests
            else
              && t.calls[c].pc == (if a == Writes(c) then Waiting else Leaving(LogFailed))
              && t.requests == s.requests + {call.draw} && t.written.Keys == s.written.Keys + {call.draw}
              && t.written[call.draw].msg == m && (Transmit(m).Some? ==> t.written[call.draw].seen == Transmit(m).value)
  {
    hide Stan, Legible, Transmit;
  }

  /** A reversal is written under a STAN of its own and names the call's type and STAN, or it is not written. */
  lemma ReversalExact(s: State, c: nat, a: Action, t: State)
    requires Step(s, a, t) && (a == WritesReversal(c) || a == ReversesThenRaises(c) || a == FailsReversal(c))
    ensures c in s.calls && c in t.calls
    ensures t.calls[c].pc ==
            Leaving(if a == WritesReversal(c) then TimedOut
                    else if a == ReversesThenRaises(c) then LogFailed
                    else SendFailed)
    ensures if a == FailsReversal(c) then t.written == s.written && t.requests == s.requests
            else
              && s.calls[c].reversal.Some?
              && t.requests == s.requests + {s.calls[c].reversal.value}
              && t.written.Keys == s.written.Keys + {s.calls[c].reversal.value}
              && NamesCall(t.written[s.calls[c].reversal.value].msg, s.calls[c], s.calls[c].reversal.value)
  {
    hide Stan, Transmit, Seen, ReversalOf, NamesCall;
    if a != FailsReversal(c) {
      ReversalNames(s.calls[c]);
    }
  }

  /** An 0400 with the draw's own STAN, and in DE 90 the call's type and STAN and 32 zeros. */
  predicate NamesCall(m: Message, call: Call, d: nat) {
    && m.mti == "0400" && m.fields.Keys == {11, 90} && m.fields[11] == Stan(d)
    && m.fields[90] == call.mti + Stan(call.draw) + "00000000000000000000000000000000"
  }

  lemma ReversalNames(call: Call)
    requires call.reversal.Some?
    ensures NamesCall(ReversalOf(call), call, call.reversal.value)
  {
    hide Stan;
    ReversalIs(call);
  }

  lemma ReversalIs(call: Call)
    requires call.reversal.Some?
    ensures ReversalOf(call) ==
            Message("0400", map[11 := Stan(call.reversal.value),
                                90 := call.mti + Stan(call.draw) + "00000000000000000000000000000000"])
  {
    hide Stan;
    ThirtyTwoZeros(call.mti, Stan(call.draw));
  }

  lemma ThirtyTwoZeros(mti: string, stan: string)
    ensures Reversal.BuildOriginalDataElements(mti, stan) == mti + stan + "00000000000000000000000000000000"
  {
    assert Text.Repeat('0', 10) == "0000000000" && Text.Repeat('0', 11) == "00000000000";
    assert "0000000000" + "00000000000" + "00000000000" == "00000000000000000000000000000000";
    assert mti + stan + "0000000000" + "00000000000" + "00000000000" ==
           mti + stan + ("0000000000" + "00000000000" + "00000000000");
  }

  /** Sign-on, sign-off and heartbeats carry the next STAN and their code, and nothing else. */
  lemma NetworkExact(s: State, d: nat, code: string, t: State)
    requires Step(s, WritesNetwork(d, code), t)
    ensures d in t.written && t.requests == s.requests + {d}
    ensures t.written[d].msg == Message("0800", map[11 := Stan(d), 70 := code])
    ensures t.calls == s.calls && t.pending == s.pending
  {
    hide Stan, Seen, IsExact;
  }

  /** The switch answers a message it has received once, as it read it, and the answer is on its way back. */
  lemma RespondExact(s: State, d: nat, code: string, t: State)
    requires Step(s, Responds(d, code), t)
    ensures d in s.requests && d in s.written && t.requests == s.requests - {d} && t.replies == s.replies + {d}
    ensures Response(s.written[d].seen, code).Some? && d in t.answers
    ensures var m := Response(s.written[d].seen, code).value;
            && t.answers[d].code == code && t.answers[d].msg == m
            && (Transmit(m).Some? ==> t.answers[d].seen == Transmit(m).value)
    ensures t.calls == s.calls && t.pending == s.pending && t.written == s.written
  {
    hide Transmit, Response, IsResponseCode;
  }

  /** A message the switch has received can be answered with any code, unless the switch keeps silent about it. */
  lemma CanRespondTo(s: State, d: nat, code: string) returns (t: State)
    requires d in s.requests && d in s.written && IsResponseCode(code)
    ensures Response(s.written[d].seen, code).Some? ==> Step(s, Responds(d, code), t)
  {
    hide Response, IsResponseCode, Seen;
    t := s;
    if Response(s.written[d].seen, code).Some? {
      t := Respond(s, d, code);
    }
  }

  /** A STAN can be drawn and a network message written at any time. */
  lemma CanBeat(s: State, code: string) returns (t: State, u: State)
    requires Inv(s) && IsExact(Digits(3), code)
    ensures Step(s, DrawsNetwork, t) && Step(t, WritesNetwork(s.draws + 1, code), u)
  {
    hide Inv, IsExact, Seen, Stan;
    DrawsOwned(s);
    t := DrawNetwork(s);
    u := WriteNetwork(t, s.draws + 1, code);
  }

  // ----- no call is stuck

  /** A call that has not sent yet can go on to wait for the answer, if its message is legible; else the send fails. */
  lemma CanSend(s: State, c: nat) returns (a: Action, t: State)
    requires c in s.calls && (s.calls[c].pc.Drawn? || s.calls[c].pc.Registered?)
    ensures Step(s, a, t) && c in t.calls
    ensures s.calls[c].pc.Drawn? ==> t.calls[c].pc == Registered && Stan(s.calls[c].draw) in t.pending
    ensures s.calls[c].pc.Registered? ==>
              if Legible(Outgoing(s.calls[c]))
              then t.calls[c].pc == Waiting && s.calls[c].draw in t.requests && s.calls[c].draw in t.written
              else t.calls[c].pc == Leaving(SendFailed)
  {
    hide Stan, Legible, Outgoing, Seen;
    if s.calls[c].pc.Drawn? {
      a, t := Registers(c), Register(s, c);
    } else if Legible(Outgoing(s.calls[c])) {
      a, t := Writes(c), Write(s, c);
    } else {
      a, t := FailsSend(c), FailSend(s, c);
    }
  }

  /** A waiting call wakes with the response once its event is set, and until then can only give up. */
  lemma CanStopWaiting(s: State, c: nat) returns (a: Action, t: State)
    requires At(s, c, Waiting)
    ensures Step(s, a, t) && c in t.calls
    ensures t.calls[c].pc == if s.calls[c].event then Leaving(Responded(s.calls[c].response)) else Expired
  {
    if s.calls[c].event {
      a, t := Wakes(c), Wake(s, c);
    } else {
      a, t := Expires(c), Expire(s, c);
    }
  }

  /** A call that has given up can draw a STAN and write its reversal, to raise TransactionTimeout. */
  lemma CanReverseIt(s: State, c: nat) returns (a: Action, t: State)
    requires Inv(s) && c in s.calls && (s.calls[c].pc.Expired? || s.calls[c].pc.Reversing?)
    ensures Step(s, a, t) && c in t.calls
    ensures s.calls[c].pc.Expired? ==> t.calls[c].pc == Reversing && t.calls[c].reversal == Some(s.draws + 1)
    ensures s.calls[c].pc.Reversing? ==>
              && t.calls[c].pc == Leaving(TimedOut) && s.calls[c].reversal.Some?
              && s.calls[c].reversal.value in t.requests && s.calls[c].reversal.value in t.written
  {
    hide Inv, Stan, ReversalOf, Seen, ResultOk, CallOk;
    HasReversal(s, c);
    if s.calls[c].pc.Expired? {
      a, t := DrawsReversal(c), DrawReversal(s, c);
    } else {
      a, t := WritesReversal(c), WriteReversal(s, c);
    }
  }

  lemma HasReversal(s: State, c: nat)
    requires Inv(s) && c in s.calls
    ensures s.calls[c].pc.Reversing? ==> s.calls[c].reversal.Some?
  {
    hide InvOwner, InvPending, InvChannels, InvDispatches, ResultOk;
    assert CallOk(s, c);
  }

  /** A call on its way out can always leave. */
  lemma CanLeaveIt(s: State, c: nat) returns (t: State)
    requires c in s.calls && s.calls[c].pc.Leaving?
    ensures Step(s, Leaves(c), t) && At(t, c, Done(s.calls[c].pc.result))
  {
    hide Stan;
    t := Leave(s, c);
  }

  // ----- an answer that has arrived can be handed over

  /** A step that draws no STAN and brings nothing to life keeps the window. */
  lemma WindowStays(s: State, t: State)
    requires StanWindow(s) && t.draws == s.draws
    requires forall d | Live(t, d) :: Live(s, d)
    ensures StanWindow(t)
  {
    hide Live;
  }

  /** The next step of an answer on its way. */
  lemma MovesOn(s: State, c: nat) returns (a: Action, t: State)
    requires Inv(s) && StanWindow(s) && At(s, c, Waiting) && PhaseOf(s, c) != Nowhere && PhaseOf(s, c) != EventSet
    ensures Step(s, a, t) && !a.Starts? && Inv(t) && StanWindow(t)
    ensures At(t, c, Waiting) && t.calls[c].draw == s.calls[c].draw
    ensures t.answers == s.answers && t.calls[c].mti == s.calls[c].mti && t.calls[c].fields == s.calls[c].fields
    ensures PhaseOf(s, c) == Received ==> PhaseOf(t, c) == Matched
    ensures PhaseOf(s, c) == Matched ==> PhaseOf(t, c) == ResponseSet
    ensures PhaseOf(s, c) == ResponseSet ==> PhaseOf(t, c) == EventSet
  {
    hide StanWindow, Inv, Live, Step, CanLookup, CanDispatch;
    var d := s.calls[c].draw;
    InHandIsAnswered(s, c);
    if PhaseOf(s, c) == Received {
      t := LookupStep(s, c);
      a := LooksUp(d);
    } else {
      MatchedIsOwn(s, c);
      if PhaseOf(s, c) == Matched {
        t := ResponseStep(s, c);
        a := SetsResponse(d);
      } else {
        t := EventStep(s, c);
        a := SetsEvent(d);
      }
    }
    StepKeeps(s, a, t);
    PhaseExact(s, c, a, t);
    WindowStays(s, t);
  }

  lemma MatchedIsOwn(s: State, c: nat)
    requires Inv(s) && c in s.calls && s.calls[c].draw in s.dispatches
    ensures s.dispatches[s.calls[c].draw].call == c
  {
    hide Inv;
    OwnDispatch(s, c, s.calls[c].draw);
  }

  lemma LookupStep(s: State, c: nat) returns (t: State)
    requires At(s, c, Waiting) && s.calls[c].draw in s.answers && s.calls[c].draw in s.replies
    ensures Step(s, LooksUp(s.calls[c].draw), t) && At(t, c, Waiting) && t.draws == s.draws && t.answers == s.answers
    ensures t.calls[c].draw == s.calls[c].draw && forall e | Live(t, e) :: Live(s, e)
    ensures t.calls[c].mti == s.calls[c].mti && t.calls[c].fields == s.calls[c].fields
  {
    hide Get;
    t := Lookup(s, s.calls[c].draw);
  }

  lemma ResponseStep(s: State, c: nat) returns (t: State)
    requires At(s, c, Waiting) && s.calls[c].draw in s.answers
    requires s.calls[c].draw in s.dispatches && s.dispatches[s.calls[c].draw] == Dispatch(c, false)
    ensures Step(s, SetsResponse(s.calls[c].draw), t) && At(t, c, Waiting)
    ensures t.draws == s.draws && t.answers == s.answers
    ensures t.calls[c].draw == s.calls[c].draw && forall e | Live(t, e) :: Live(s, e)
    ensures t.calls[c].mti == s.calls[c].mti && t.calls[c].fields == s.calls[c].fields
  {
    t := SetResponse(s, s.calls[c].draw);
    LiveKept(s, t, c);
  }

  lemma EventStep(s: State, c: nat) returns (t: State)
    requires At(s, c, Waiting) && s.calls[c].draw in s.answers
    requires s.calls[c].draw in s.dispatches && s.dispatches[s.calls[c].draw] == Dispatch(c, true)
    ensures Step(s, SetsEvent(s.calls[c].draw), t) && At(t, c, Waiting)
    ensures t.draws == s.draws && t.answers == s.answers
    ensures t.calls[c].draw == s.calls[c].draw && forall e | Live(t, e) :: Live(s, e)
    ensures t.calls[c].mti == s.calls[c].mti && t.calls[c].fields == s.calls[c].fields
  {
    t := SetEvent(s, s.calls[c].draw);
    LiveKept(s, t, c);
  }

  lemma LiveKept(s: State, t: State, c: nat)
    requires t.requests == s.requests && t.replies == s.replies && t.dispatches.Keys <= s.dispatches.Keys
    requires c in s.calls && c in t.calls && t.calls == s.calls[c := t.calls[c]] && t.calls[c].draw == s.calls[c].draw
    requires t.calls[c].pc == s.calls[c].pc || t.calls[c].pc.Done?
             || (!s.calls[c].pc.Done? && !t.calls[c].pc.Done?)
    ensures forall e | Live(t, e) :: Live(s, e)
  {
    forall e | Live(t, e)
      ensures Live(s, e)
    {
      if f :| f in t.calls && t.calls[f].draw == e && !t.calls[f].pc.Done? {
        assert f in s.calls && s.calls[f].draw == e && !s.calls[f].pc.Done?;
      }
    }
  }

  /** Once the event is set the call can return the answer. */
  lemma Returns(start: State, s: State, c: nat) returns (t: State)
    requires Leads(start, s)
    requires Inv(s) && StanWindow(s) && At(s, c, Waiting) && PhaseOf(s, c) == EventSet
    ensures Leads(start, t)
    ensures s.calls[c].draw in s.answers && c in t.calls && t.calls[c].draw == s.calls[c].draw
    ensures t.calls[c].pc == Done(Responded(Some(Reply(s.calls[c].draw, s.answers[s.calls[c].draw].seen))))
    ensures t.answers == s.answers && t.calls[c].mti == s.calls[c].mti && t.calls[c].fields == s.calls[c].fields
  {
    hide Leads, StanWindow, Inv, Live, Stan;
    WakesWithAnswer(s, c);
    var u := Wake(s, c);
    LiveKept(s, u, c);
    WindowStays(s, u);
    LeadsOn(start, s, Wakes(c), u);
    t := Leave(u, c);
    LeadsOn(start, u, Leaves(c), t);
  }

  /** From any state in which a waiting call's answer has arrived, the call can come to return that answer. */
  lemma {:induction false} CanBeAnswered(start: State, s: State, c: nat) returns (t: State)
    requires Leads(start, s)
    requires Inv(s) && StanWindow(s) && At(s, c, Waiting) && PhaseOf(s, c) != Nowhere
    ensures Leads(start, t)
    ensures s.calls[c].draw in s.answers && c in t.calls && t.calls[c].draw == s.calls[c].draw
    ensures t.calls[c].pc == Done(Responded(Some(Reply(s.calls[c].draw, s.answers[s.calls[c].draw].seen))))
    ensures t.answers == s.answers && t.calls[c].mti == s.calls[c].mti && t.calls[c].fields == s.calls[c].fields
    decreases match PhaseOf(s, c) case Received => 3 case Matched => 2 case ResponseSet => 1 case _ => 0
  {
    hide Leads, Inv, StanWindow, Step;
    if PhaseOf(s, c) == EventSet {
      t := Returns(start, s, c);
    } else {
      var a, u := MovesOn(s, c);
      LeadsOn(start, s, a, u);
      t := CanBeAnswered(start, u, c);
    }
  }
}
