/** The risk gate (risk/rules.py). */
module Risk {
  import opened Velocity

  datatype Verdict = Approve | Review | Decline

  datatype Reason = VelocityExceeded | VelocityElevated | AmountOverLimit | AmountOverReview | ManualEntry

  datatype Config = Config(
    window: real, velocityDecline: nat, velocityReview: nat,
    amountDecline: nat, amountReview: nat, manualReview: nat)

  datatype Decision = Decision(verdict: Verdict, reasons: seq<Reason>)

  function Severity(v: Verdict): nat {
    match v
    case Approve => 0
    case Review => 1
    case Decline => 2
  }

  /** What a rule asks for. */
  function Demand(r: Reason): Verdict {
    if r.VelocityExceeded? || r.AmountOverLimit? then Decline else Review
  }

  function VelocityReasons(config: Config, count: nat): seq<Reason> {
    if count > config.velocityDecline then [VelocityExceeded]
    else if count > config.velocityReview then [VelocityElevated]
    else []
  }

  function AmountReasons(config: Config, cents: nat): seq<Reason> {
    if cents > config.amountDecline then [AmountOverLimit]
    else if cents > config.amountReview then [AmountOverReview]
    else []
  }

  function EntryReasons(config: Config, cents: nat, entryMode: string): seq<Reason> {
    if entryMode == "01" && cents > config.manualReview then [ManualEntry] else []
  }

  /** The rules a transaction triggers, in order. */
  function Triggered(config: Config, count: nat, cents: nat, entryMode: string): seq<Reason> {
    VelocityReasons(config, count) + AmountReasons(config, cents) + EntryReasons(config, cents, entryMode)
  }

  /** The most severe demand among the reasons. */
  function Worst(reasons: seq<Reason>): Verdict {
    if reasons == [] then Approve
    else
      var before, last := Worst(reasons[..|reasons| - 1]), Demand(reasons[|reasons| - 1]);
      if Severity(last) > Severity(before) then last else before
  }

  function Min(a: nat, b: nat): nat {
    if a <= b then a else b
  }

  /** Approved means every rule was quiet: the count and the amount are within both thresholds. */
  lemma ApprovedExact(config: Config, count: nat, cents: nat, entryMode: string)
    ensures Worst(Triggered(config, count, cents, entryMode)) == Approve <==>
            && count <= Min(config.velocityDecline, config.velocityReview)
            && cents <= Min(config.amountDecline, config.amountReview)
            && !(entryMode == "01" && cents > config.manualReview)
  {
    var reasons := Triggered(config, count, cents, entryMode);
    WorstIsApprove(reasons);
    assert count > config.velocityDecline ==> reasons[0] == VelocityExceeded;
    assert cents > config.amountDecline ==> AmountOverLimit in reasons;
  }

  /** What the rules decide: decline over a decline threshold, review over another, and approve otherwise. */
  lemma VerdictExact(config: Config, count: nat, cents: nat, entryMode: string)
    ensures var verdict := Worst(Triggered(config, count, cents, entryMode));
            && (verdict == Decline <==> count > config.velocityDecline || cents > config.amountDecline)
            && (verdict == Review <==>
                  && count <= config.velocityDecline && cents <= config.amountDecline
                  && (count > config.velocityReview || cents > config.amountReview
                      || (entryMode == "01" && cents > config.manualReview)))
  {
    hide Worst;
    var v, a, m := VelocityReasons(config, count), AmountReasons(config, cents), EntryReasons(config, cents, entryMode);
    WorstOfMore([], v);
    WorstOfMore(v, a);
    WorstOfMore(v + a, m);
    assert [] + v == v;
    WorstIsApprove([]);
  }

  /** One more reason, or none. */
  lemma WorstOfMore(reasons: seq<Reason>, more: seq<Reason>)
    requires |more| <= 1
    ensures Worst(reasons + more) ==
            if more == [] || Severity(Demand(more[0])) <= Severity(Worst(reasons)) then Worst(reasons)
            else Demand(more[0])
  {
    if more == [] {
      assert reasons + more == reasons;
    } else {
      assert (reasons + more)[..|reasons|] == reasons;
    }
  }

  /** Each rule gives its reason exactly when its threshold is passed, and only the sharper of two. */
  lemma ReasonsExact(config: Config, count: nat, cents: nat, entryMode: string)
    ensures var reasons := Triggered(config, count, cents, entryMode);
            && (VelocityExceeded in reasons <==> count > config.velocityDecline)
            && (VelocityElevated in reasons <==> config.velocityReview < count <= config.velocityDecline)
            && (AmountOverLimit in reasons <==> cents > config.amountDecline)
            && (AmountOverReview in reasons <==> config.amountReview < cents <= config.amountDecline)
            && (ManualEntry in reasons <==> entryMode == "01" && cents > config.manualReview)
  {
  }

  lemma AllReasons(config: Config, count: nat, cents: nat, entryMode: string)
    ensures var reasons := VelocityReasons(config, count) + AmountReasons(config, cents);
            Triggered(config, count, cents, entryMode) ==
            if entryMode == "01" && cents > config.manualReview then reasons + [ManualEntry] else reasons
  {
  }

  lemma WorstIsApprove(reasons: seq<Reason>)
    ensures Worst(reasons) == Approve <==> reasons == []
  {
  }

  // ----- runs of evaluations of one card

  datatype Evaluation = Evaluation(time: real, cents: nat, entryMode: string, verdict: Verdict)

  function Times(run: seq<Evaluation>): (t: seq<real>)
    ensures |t| == |run| && forall i | 0 <= i < |run| :: t[i] == run[i].time
  {
    seq(|run|, i requires 0 <= i < |run| => run[i].time)
  }

  /** Every verdict is the one the rules give on the attempts so far. */
  ghost predicate IsRun(config: Config, run: seq<Evaluation>) {
    InOrder(Times(run)) && forall i | 0 <= i < |run| :: IsJudged(config, run, i)
  }

  predicate IsJudged(config: Config, run: seq<Evaluation>, i: nat)
    requires i < |run|
  {
    run[i].verdict == Judge(config, Times(run[..i + 1]), run[i])
  }

  /** The rules applied to an evaluation whose attempt is the last of these times. */
  function Judge(config: Config, times: seq<real>, e: Evaluation): Verdict {
    Worst(Triggered(config, |Recent(times, e.time - config.window)|, e.cents, e.entryMode))
  }

  lemma IsJudge(config: Config, times: seq<real>, e: Evaluation, count: nat)
    requires count == |Recent(times, e.time - config.window)|
    requires e.verdict == Worst(Triggered(config, count, e.cents, e.entryMode))
    ensures e.verdict == Judge(config, times, e)
  {
    hide Recent, Worst, Triggered;
  }

  /** The approved evaluations with times from..from + window. */
  function ApprovedIn(run: seq<Evaluation>, from: real, window: real): seq<Evaluation> {
    if run == [] then []
    else
      var e, before := run[|run| - 1], ApprovedIn(run[..|run| - 1], from, window);
      if e.verdict == Approve && from <= e.time <= from + window then before + [e] else before
  }

  function Total(run: seq<Evaluation>): nat {
    if run == [] then 0 else Total(run[..|run| - 1]) + run[|run| - 1].cents
  }

  lemma PrefixIsRun(config: Config, run: seq<Evaluation>)
    requires run != [] && IsRun(config, run)
    ensures IsRun(config, run[..|run| - 1])
  {
    var before := run[..|run| - 1];
    assert forall i | 0 <= i < |before| :: Times(before)[i] == Times(run)[i];
    assert Times(before) == Times(run)[..|before|];
    forall i | 0 <= i < |before|
      ensures IsJudged(config, before, i)
    {
      assert IsJudged(config, run, i);
      assert before[..i + 1] == run[..i + 1];
    }
  }

  /** Approved evaluations inside a window ending no later than the cutoff's window are among the recent attempts. */
  lemma {:induction false} ApprovedAreRecent(run: seq<Evaluation>, from: real, window: real, cutoff: real)
    requires cutoff <= from
    ensures |ApprovedIn(run, from, window)| <= |Recent(Times(run), cutoff)|
  {
    if run != [] {
      assert Times(run)[..|run| - 1] == Times(run[..|run| - 1]);
      ApprovedAreRecent(run[..|run| - 1], from, window, cutoff);
    }
  }

  /**
    In any closed window as long as the velocity window, at most min(review, decline) evaluations of a card are
    approved, each for at most min(amount review, amount decline), and so is their total bounded.
   */
  lemma {:induction false} WindowBound(config: Config, run: seq<Evaluation>, from: real)
    requires IsRun(config, run)
    ensures var approved := ApprovedIn(run, from, config.window);
            && |approved| <= Min(config.velocityReview, config.velocityDecline)
            && Total(approved) <= |approved| * Min(config.amountReview, config.amountDecline)
    decreases |run|
  {
    hide Triggered, Worst, IsRun;
    if run != [] {
      var e, before := run[|run| - 1], run[..|run| - 1];
      PrefixIsRun(config, run);
      WindowBound(config, before, from);
      if e.verdict == Approve && from <= e.time <= from + config.window {
        ApprovedLast(config, run, from);
        var approved := ApprovedIn(run, from, config.window);
        assert approved[..|approved| - 1] == ApprovedIn(before, from, config.window);
        Distribute(|approved| - 1, Min(config.amountReview, config.amountDecline));
      }
    }
  }

  lemma ApprovedLast(config: Config, run: seq<Evaluation>, from: real)
    requires run != [] && IsRun(config, run) && run[|run| - 1].verdict == Approve
    requires from <= run[|run| - 1].time <= from + config.window
    ensures |ApprovedIn(run, from, config.window)| <= Min(config.velocityReview, config.velocityDecline)
    ensures run[|run| - 1].cents <= Min(config.amountReview, config.amountDecline)
  {
    hide Triggered, Worst, Recent, ApprovedIn;
    var e := run[|run| - 1];
    assert IsJudged(config, run, |run| - 1) && run[..|run|] == run;
    ApprovedExact(config, |Recent(Times(run), e.time - config.window)|, e.cents, e.entryMode);
    ApprovedAreRecent(run, from, config.window, e.time - config.window);
  }

  lemma Distribute(n: nat, limit: nat)
    ensures n * limit + limit == (n + 1) * limit
  {
  }

  // ----- the engine

  function GetRun(log: map<string, seq<Evaluation>>, card: string): seq<Evaluation> {
    if card in log then log[card] else []
  }

  predicate Matches(log: map<string, seq<Evaluation>>, history: map<string, seq<real>>, card: string) {
    Times(GetRun(log, card)) == Get(history, card)
  }

  ghost predicate AllRuns(config: Config, log: map<string, seq<Evaluation>>, history: map<string, seq<real>>) {
    forall card :: IsRun(config, GetRun(log, card)) && Matches(log, history, card)
  }

  lemma AllRunsGrow(
      config: Config, log: map<string, seq<Evaluation>>, history: map<string, seq<real>>, card: string, e: Evaluation)
    requires AllRuns(config, log, history) && InOrder(Get(history, card) + [e.time])
    requires e.verdict == Judge(config, Get(history, card) + [e.time], e)
    ensures AllRuns(config, log[card := GetRun(log, card) + [e]], history[card := Get(history, card) + [e.time]])
  {
    hide IsRun, Judge, Times, InOrder;
    assert Matches(log, history, card);
    RunGrows(config, GetRun(log, card), e);
    var moreLog, moreHistory := log[card := GetRun(log, card) + [e]], history[card := Get(history, card) + [e.time]];
    forall other
      ensures IsRun(config, GetRun(moreLog, other)) && Matches(moreLog, moreHistory, other)
    {
      assert IsRun(config, GetRun(log, other)) && Matches(log, history, other);
    }
  }

  class RiskEngine {
    const config: Config
    const tracker: InMemoryVelocityTracker
    ghost var log: map<string, seq<Evaluation>>

    /** Every card's evaluations are a run over exactly the attempts the tracker recorded. */
    ghost predicate Valid()
      reads this, tracker
    {
      tracker.Valid(config.window) && AllRuns(config, log, tracker.history)
    }

    constructor (config: Config)
      ensures Valid() && this.config == config && log == map[] && fresh(tracker)
    {
      this.config := config;
      tracker := new InMemoryVelocityTracker();
      log := map[];
    }

    /** now is the tracker's clock reading; as long as readings reach its lock in order, the count is over the history. */
    method Evaluate(cardNumber: string, amountCents: nat, entryMode: string, now: real) returns (decision: Decision)
      modifies this, tracker
      ensures log == old(log)[cardNumber :=
                old(GetRun(log, cardNumber)) + [Evaluation(now, amountCents, entryMode, decision.verdict)]]
      ensures cardNumber in tracker.recentAttempts
      ensures tracker.recentAttempts[cardNumber] ==
              Recent(old(Get(tracker.recentAttempts, cardNumber)) + [now], now - config.window)
      ensures decision.reasons == Triggered(config, |tracker.recentAttempts[cardNumber]|, amountCents, entryMode)
      ensures decision.verdict == Worst(decision.reasons)
      ensures var count := |tracker.recentAttempts[cardNumber]|;
              && (decision.verdict == Decline <==> count > config.velocityDecline || amountCents > config.amountDecline)
              && (decision.verdict == Review <==>
                    && count <= config.velocityDecline && amountCents <= config.amountDecline
                    && (count > config.velocityReview || amountCents > config.amountReview
                        || (entryMode == "01" && amountCents > config.manualReview)))
      ensures old(Valid()) && InOrder(Get(tracker.history, cardNumber)) ==>
                && Valid()
                && |tracker.recentAttempts[cardNumber]| == |Recent(Get(tracker.history, cardNumber), now - config.window)|
    {
      hide Recent, InOrder, Worst, AllRuns, Tracks, Severity, Demand, Judge, Triggered;
      var reasons: seq<Reason>, verdict := [], Approve;
      WorstIsApprove([]);
      ghost var history, wasValid := tracker.history, Valid();
      var count := tracker.RecordAndCountRecent(cardNumber, now, config.window);
      if count > config.velocityDecline {
        reasons, verdict := Escalate(reasons, verdict, VelocityExceeded);
      } else if count > config.velocityReview {
        reasons, verdict := Escalate(reasons, verdict, VelocityElevated);
      }
      assert reasons == VelocityReasons(config, count);
      if amountCents > config.amountDecline {
        reasons, verdict := Escalate(reasons, verdict, AmountOverLimit);
      } else if amountCents > config.amountReview {
        reasons, verdict := Escalate(reasons, verdict, AmountOverReview);
      }
      assert reasons == VelocityReasons(config, count) + AmountReasons(config, amountCents);
      if entryMode == "01" && amountCents > config.manualReview {
        reasons, verdict := Escalate(reasons, verdict, ManualEntry);
      }
      decision := Decision(verdict, reasons);
      AllReasons(config, count, amountCents, entryMode);
      VerdictExact(config, count, amountCents, entryMode);
      ghost var e := Evaluation(now, amountCents, entryMode, verdict);
      if wasValid && InOrder(Get(history, cardNumber) + [now]) {
        IsJudge(config, Get(history, cardNumber) + [now], e, count);
        AllRunsGrow(config, log, history, cardNumber, e);
      }
      log := log[cardNumber := GetRun(log, cardNumber) + [e]];
    }

    /** The nested escalate: note the reason, and raise the outcome if it demands more. */
    method Escalate(reasons: seq<Reason>, verdict: Verdict, reason: Reason) returns (r: seq<Reason>, v: Verdict)
      requires verdict == Worst(reasons)
      ensures r == reasons + [reason] && v == Worst(r)
    {
      r := reasons + [reason];
      assert r[..|reasons|] == reasons;
      v := if Severity(Demand(reason)) > Severity(verdict) then Demand(reason) else verdict;
    }
  }

  lemma RunGrows(config: Config, run: seq<Evaluation>, e: Evaluation)
    requires IsRun(config, run) && InOrder(Times(run) + [e.time])
    requires e.verdict == Judge(config, Times(run) + [e.time], e)
    ensures IsRun(config, run + [e]) && Times(run + [e]) == Times(run) + [e.time]
  {
    hide Triggered, Worst, Recent;
    var more := run + [e];
    assert Times(more) == Times(run) + [e.time];
    forall i | 0 <= i < |more|
      ensures IsJudged(config, more, i)
    {
      if i < |run| {
        assert IsJudged(config, run, i);
        assert more[..i + 1] == run[..i + 1];
      } else {
        assert more[..i + 1] == more;
      }
    }
  }
}
