/** What the callers of send_and_wait (correlation/tracker.py:60-92) may rely on, over every run. */
module Answers {
  import opened Wrappers
  import opened HostSwitch
  import opened Reversal
  import opened Correlation

  /** No two calls wait under the same STAN, and the pending map holds exactly the STANs of the calls that wait. */
  lemma PendingIsExact(s: State)
    requires Reachable(s)
    ensures s.pending.Keys == set c | c in s.calls && s.calls[c].InPending() :: Stan(s.calls[c].draw)
    ensures forall b, c | b in s.calls && c in s.calls && s.calls[b].InPending() && s.calls[c].InPending() && b != c ::
              Stan(s.calls[b].draw) != Stan(s.calls[c].draw)
  {
    hide Reachable, Stan, InvOwner, InvCalls, InvChannels, InvDispatches;
    ReachableKeeps(s);
    forall k | k in s.pending
      ensures k in set c | c in s.calls && s.calls[c].InPending() :: Stan(s.calls[c].draw)
    {
      var c := s.pending[k];
      assert c in s.calls && s.calls[c].InPending() && Stan(s.calls[c].draw) == k;
    }
  }

  /**
    A call that returns a response returns the switch's answer to its own message, whatever else was under way:
    never None, never the answer to another call, a heartbeat or a reversal.
   */
  lemma ResponseIsOwn(s: State, c: nat, response: Option<Reply>)
    requires Reachable(s) && At(s, c, Done(Responded(response)))
    ensures IsOwn(s, c, response)
  {
    hide Reachable, IsOwn, Inv;
    ReachableKeeps(s);
    InvResponseIsOwn(s, c, response);
  }

  /** The reversals written on behalf of call c. */
  ghost function ReversalsOf(s: State, c: nat): set<nat> {
    set d | d in s.written && d in s.owner && s.owner[d] == Reverse(c)
  }

  /** The call's reversal went out: its wait ran out, or the audit logger raised over the reversal itself. */
  predicate Reversed(s: State, c: nat, result: Result)
    requires c in s.calls
  {
    result.TimedOut? || (result.LogFailed? && s.calls[c].reversal.Some?)
  }

  /**
    A call that raises TransactionTimeout has had exactly one reversal written, and the switch reads the call's MTI
    and STAN off the front of its DE 90. A call that ends otherwise has had none written, unless the audit logger
    raised after the reversal was; without a file to log to it never does.
   */
  lemma ReversalExactlyOnTimeout(s: State, c: nat, result: Result)
    requires Reachable(s) && At(s, c, Done(result))
    ensures Reversed(s, c, result) ==>
              exists d :: ReversalsOf(s, c) == {d} && Reverses(s.written[d].seen, s.calls[c].mti, Stan(s.calls[c].draw))
    ensures Reversed(s, c, result) ==> s.calls[c].draw in s.written
    ensures !Reversed(s, c, result) ==> ReversalsOf(s, c) == {}
    ensures result.LogFailed? ==> s.fileLogged
  {
    hide Reachable, Stan, Legible, Transmit, AnswerOk, BuildReversal, InvPending, InvDispatches;
    ReachableKeeps(s);
    var call := s.calls[c];
    assert CallOk(s, c);
    forall d | d in ReversalsOf(s, c)
      ensures call.reversal == Some(d)
    {
      assert SentOk(s, d);
    }
    if Reversed(s, c, result) {
      var d := call.reversal.value;
      assert ReversalsOf(s, c) == {d};
      WrittenReversal(s, c);
    }
  }

  /**
    After a send error the call's own message was written exactly if it was the reversal that failed to go out, or the
    audit logger that raised after a frame was written. Without a file to log to it was written exactly if a STAN had
    been drawn for a reversal.
   */
  lemma SendErrorExact(s: State, c: nat, result: Result)
    requires Reachable(s) && At(s, c, Done(result)) && (result.SendFailed? || result.LogFailed?)
    ensures s.calls[c].draw in s.written <==> s.calls[c].reversal.Some? || result.LogFailed?
    ensures !s.fileLogged ==> (s.calls[c].draw in s.written <==> s.calls[c].reversal.Some?)
  {
    hide Reachable, Inv;
    ReachableKeeps(s);
    CallIsOk(s, c);
  }
}
