/** Attempts on a card within a sliding window (cache/velocity_tracker.py). */
module Velocity {

  /** [t for t in attempts if t >= cutoff] */
  function Recent(attempts: seq<real>, cutoff: real): seq<real> {
    if attempts == [] then []
    else
      var rest := Recent(attempts[..|attempts| - 1], cutoff);
      if attempts[|attempts| - 1] >= cutoff then rest + [attempts[|attempts| - 1]] else rest
  }

  predicate InOrder(times: seq<real>) {
    forall i, j | 0 <= i < j < |times| :: times[i] <= times[j]
  }

  lemma RecentOfMore(attempts: seq<real>, t: real, cutoff: real)
    ensures Recent(attempts + [t], cutoff) == Recent(attempts, cutoff) + if t >= cutoff then [t] else []
  {
    assert (attempts + [t])[..|attempts|] == attempts;
    assert Recent(attempts, cutoff) + [] == Recent(attempts, cutoff);
  }

  /** How many attempts there are at or after the cutoff. */
  lemma {:induction false} RecentExact(attempts: seq<real>, cutoff: real)
    ensures |Recent(attempts, cutoff)| == |set i | 0 <= i < |attempts| && attempts[i] >= cutoff|
  {
    if attempts != [] {
      var n := |attempts| - 1;
      RecentExact(attempts[..n], cutoff);
      var before, all := set i | 0 <= i < n && attempts[..n][i] >= cutoff, set i | 0 <= i <= n && attempts[i] >= cutoff;
      if attempts[n] >= cutoff {
        assert all == before + {n};
      } else {
        assert all == before;
      }
      assert all == set i | 0 <= i < |attempts| && attempts[i] >= cutoff;
    }
  }

  /** Pruning at a lower cutoff first loses nothing that a higher one keeps. */
  lemma {:induction false} RecentTwice(history: seq<real>, low: real, high: real)
    requires low <= high
    ensures Recent(Recent(history, low), high) == Recent(history, high)
  {
    if history != [] {
      var before, t := history[..|history| - 1], history[|history| - 1];
      RecentTwice(before, low, high);
      RecentOfMore(Recent(before, low), t, high);
    }
  }

  lemma {:induction false} RecentLength(history: seq<real>, pruned: real, cutoff: real)
    ensures |Recent(Recent(history, pruned), cutoff)| <= |Recent(history, cutoff)|
    ensures |Recent(Recent(history, pruned), cutoff)| == |Recent(history, cutoff)|
       <==> forall i | 0 <= i < |history| :: !(cutoff <= history[i] < pruned)
  {
    if history != [] {
      var before, t := history[..|history| - 1], history[|history| - 1];
      RecentLength(before, pruned, cutoff);
      RecentOfMore(Recent(before, pruned), t, cutoff);
      assert forall i | 0 <= i < |before| :: before[i] == history[i];
    }
  }

  /**
    A list pruned at an earlier cutoff counts right at a later reading exactly when no attempt falls between the
    two cutoffs; with readings in order the new cutoff is never the lower one, so it always does.
   */
  lemma PrunedCountExact(history: seq<real>, pruned: real, now: real, window: real)
    ensures |Recent(Recent(history, pruned) + [now], now - window)| == |Recent(history + [now], now - window)|
       <==> forall i | 0 <= i < |history| :: !(now - window <= history[i] < pruned)
    ensures pruned <= now - window ==>
              Recent(Recent(history, pruned) + [now], now - window) == Recent(history + [now], now - window)
  {
    RecentOfMore(Recent(history, pruned), now, now - window);
    RecentOfMore(history, now, now - window);
    RecentLength(history, pruned, now - window);
    if pruned <= now - window {
      RecentTwice(history, pruned, now - window);
    }
  }

  function Get(m: map<string, seq<real>>, card: string): seq<real> {
    if card in m then m[card] else []
  }

  /** The list kept for a card whose whole history is given, when every reading used the same window. */
  function Kept(history: seq<real>, window: real): seq<real> {
    if history == [] then [] else Recent(history, history[|history| - 1] - window)
  }

  lemma KeptGrows(history: seq<real>, now: real, window: real)
    requires InOrder(history + [now])
    ensures Recent(Kept(history, window) + [now], now - window) == Kept(history + [now], window)
    ensures InOrder(history)
  {
    hide Recent;
    assert forall i | 0 <= i < |history| :: (history + [now])[i] == history[i];
    if history == [] {
      assert Kept(history, window) + [now] == history + [now];
    } else {
      assert (history + [now])[|history| - 1] <= (history + [now])[|history|];
      PrunedCountExact(history, history[|history| - 1] - window, now, window);
    }
  }

  /** Used with one window, each card's list is its history pruned at the last cutoff. */
  ghost predicate Tracks(recent: map<string, seq<real>>, history: map<string, seq<real>>, window: real) {
    forall card :: TracksCard(recent, history, window, card)
  }

  predicate TracksCard(recent: map<string, seq<real>>, history: map<string, seq<real>>, window: real, card: string) {
    InOrder(Get(history, card)) && Get(recent, card) == Kept(Get(history, card), window)
  }

  lemma TracksOn(recent: map<string, seq<real>>, history: map<string, seq<real>>, window: real, card: string, now: real)
    requires Tracks(recent, history, window) && InOrder(Get(history, card) + [now])
    ensures var kept := Recent(Get(recent, card) + [now], now - window);
            && kept == Recent(Get(history, card) + [now], now - window)
            && Tracks(recent[card := kept], history[card := Get(history, card) + [now]], window)
  {
    hide Recent, Kept, InOrder;
    KeptGrows(Get(history, card), now, window);
    KeptOfGrown(Get(history, card), now, window);
    var kept := Recent(Get(recent, card) + [now], now - window);
    var grown := Get(history, card) + [now];
    assert TracksCard(recent, history, window, card);
    var recent', history' := recent[card := kept], history[card := grown];
    forall other
      ensures TracksCard(recent', history', window, other)
    {
      assert TracksCard(recent, history, window, other);
    }
  }

  lemma KeptOfGrown(history: seq<real>, now: real, window: real)
    ensures Kept(history + [now], window) == Recent(history + [now], now - window)
  {
  }

  class InMemoryVelocityTracker {
    var recentAttempts: map<string, seq<real>>
    ghost var history: map<string, seq<real>>

    ghost predicate Valid(window: real)
      reads this
    {
      Tracks(recentAttempts, history, window)
    }

    constructor ()
      ensures history == map[] && forall window :: Valid(window)
    {
      recentAttempts, history := map[], map[];
    }

    /** now is the clock reading taken before the lock. */
    method RecordAndCountRecent(cardNumber: string, now: real, window: real) returns (count: nat)
      modifies this
      ensures recentAttempts ==
              old(recentAttempts)[cardNumber := Recent(old(Get(recentAttempts, cardNumber)) + [now], now - window)]
      ensures count == |recentAttempts[cardNumber]|
      ensures history == old(history)[cardNumber := old(Get(history, cardNumber)) + [now]]
      ensures old(Valid(window)) && InOrder(Get(history, cardNumber)) ==>
                Valid(window) && count == |Recent(Get(history, cardNumber), now - window)|
    {
      hide Recent, InOrder, Tracks;
      if Valid(window) && InOrder(Get(history, cardNumber) + [now]) {
        TracksOn(recentAttempts, history, window, cardNumber, now);
      }
      var attempts := Get(recentAttempts, cardNumber) + [now];
      var cutoff := now - window;
      attempts := Recent(attempts, cutoff);
      recentAttempts := recentAttempts[cardNumber := attempts];
      history := history[cardNumber := Get(history, cardNumber) + [now]];
      count := |attempts|;
    }
  }

  // ----- the tracker on Redis

  /** Scores left after ZREMRANGEBYSCORE key 0 cutoff, whose upper end is inclusive. */
  function Unremoved(scores: seq<real>, cutoff: real): seq<real> {
    if scores == [] then []
    else
      var rest := Unremoved(scores[..|scores| - 1], cutoff);
      if 0.0 <= scores[|scores| - 1] <= cutoff then rest else rest + [scores[|scores| - 1]]
  }

  /** The sorted set of a card and when it expires. */
  datatype SortedSet = SortedSet(scores: seq<real>, expires: real)

  /** The pipeline ZADD, ZREMRANGEBYSCORE, ZCARD, EXPIRE. */
  function RedisRecord(z: SortedSet, now: real, window: real): (SortedSet, nat) {
    var scores := Unremoved((if now > z.expires then [] else z.scores) + [now], now - window);
    (SortedSet(scores, now + window.Floor as real + 5.0), |scores|)
  }

  /** Redis has seen exactly this history, with one window and readings in order. */
  ghost predicate RedisHolds(z: SortedSet, history: seq<real>, window: real) {
    && InOrder(history) && (forall i | 0 <= i < |history| :: 0.0 <= history[i])
    && if history == [] then z.scores == []
       else
         var last := history[|history| - 1];
         z.scores == Unremoved(history, last - window) && z.expires >= last + window
  }

  lemma UnremovedOfMore(scores: seq<real>, t: real, cutoff: real)
    ensures Unremoved(scores + [t], cutoff) == Unremoved(scores, cutoff) + if 0.0 <= t <= cutoff then [] else [t]
  {
    assert (scores + [t])[..|scores|] == scores;
    assert Unremoved(scores, cutoff) + [] == Unremoved(scores, cutoff);
  }

  /** How many attempts there are strictly after the cutoff. */
  lemma {:induction false} UnremovedExact(scores: seq<real>, cutoff: real)
    requires forall i | 0 <= i < |scores| :: 0.0 <= scores[i]
    ensures |Unremoved(scores, cutoff)| == |set i | 0 <= i < |scores| && scores[i] > cutoff|
  {
    if scores != [] {
      var n := |scores| - 1;
      UnremovedExact(scores[..n], cutoff);
      var before, all := set i | 0 <= i < n && scores[..n][i] > cutoff, set i | 0 <= i <= n && scores[i] > cutoff;
      if scores[n] > cutoff {
        assert all == before + {n};
      } else {
        assert all == before;
      }
      assert all == set i | 0 <= i < |scores| && scores[i] > cutoff;
    }
  }

  lemma {:induction false} UnremovedTwice(history: seq<real>, low: real, high: real)
    requires low <= high
    ensures Unremoved(Unremoved(history, low), high) == Unremoved(history, high)
  {
    if history != [] {
      var before, t := history[..|history| - 1], history[|history| - 1];
      UnremovedTwice(before, low, high);
      UnremovedOfMore(Unremoved(before, low), t, high);
    }
  }

  lemma {:induction false} AllRemoved(history: seq<real>, cutoff: real)
    requires forall i | 0 <= i < |history| :: 0.0 <= history[i] <= cutoff
    ensures Unremoved(history, cutoff) == []
  {
    if history != [] {
      AllRemoved(history[..|history| - 1], cutoff);
    }
  }

  /** Once the key has expired every attempt it held was past the cutoff anyway. */
  lemma ExpiredWerePast(history: seq<real>, now: real, cutoff: real)
    requires InOrder(history + [now]) && forall i | 0 <= i < |history| :: 0.0 <= history[i]
    requires history != [] ==> history[|history| - 1] <= cutoff
    ensures Unremoved(history, cutoff) == []
  {
    forall i | 0 <= i < |history|
      ensures 0.0 <= history[i] <= cutoff
    {
      assert i < |history| - 1 ==> (history + [now])[i] <= (history + [now])[|history| - 1];
    }
    AllRemoved(history, cutoff);
  }

  /** The count on Redis is over the whole history too, for attempts strictly after the cutoff. */
  lemma RedisCounts(z: SortedSet, history: seq<real>, now: real, window: real)
    requires RedisHolds(z, history, window) && InOrder(history + [now]) && 0.0 <= now && 0.0 <= window
    ensures RedisHolds(RedisRecord(z, now, window).0, history + [now], window)
    ensures RedisRecord(z, now, window).1 == |Unremoved(history + [now], now - window)|
    ensures RedisRecord(z, now, window).1 == |set i | 0 <= i <= |history| && (history + [now])[i] > now - window|
  {
    hide Unremoved;
    var cutoff := now - window;
    UnremovedExact(history + [now], cutoff);
    assert forall i | 0 <= i < |history + [now]| :: (history + [now])[i] >= 0.0;
    assert (set i | 0 <= i < |history + [now]| && (history + [now])[i] > cutoff) ==
           set i | 0 <= i <= |history| && (history + [now])[i] > cutoff;
    UnremovedOfMore(history, now, cutoff);
    UnremovedOfMore(z.scores, now, cutoff);
    UnremovedOfMore([], now, cutoff);
    NothingUnremoved(cutoff);
    if history != [] {
      var last := history[|history| - 1];
      assert (history + [now])[|history| - 1] <= (history + [now])[|history|];
      if now > z.expires {
        ExpiredWerePast(history, now, cutoff);
      } else {
        UnremovedTwice(history, last - window, cutoff);
      }
    }
    var more := history + [now];
    assert forall i | 0 <= i < |more| :: 0.0 <= more[i];
    assert RedisRecord(z, now, window).0.scores == Unremoved(more, cutoff);
  }

  lemma NothingUnremoved(cutoff: real)
    ensures Unremoved([], cutoff) == []
  {
  }

  /** The two trackers count the same exactly when no attempt sits on the cutoff itself. */
  lemma {:induction false} TrackersAgreeExact(history: seq<real>, cutoff: real)
    requires forall i | 0 <= i < |history| :: 0.0 <= history[i]
    ensures |Unremoved(history, cutoff)| <= |Recent(history, cutoff)|
    ensures |Unremoved(history, cutoff)| == |Recent(history, cutoff)| <==>
            forall i | 0 <= i < |history| :: history[i] != cutoff
  {
    if history != [] {
      TrackersAgreeExact(history[..|history| - 1], cutoff);
    }
  }

  /** An attempt on the cutoff: the in-memory tracker counts it, Redis does not. */
  lemma OnTheCutoff(t: real)
    requires 0.0 <= t
    ensures |Recent([t], t)| == 1 && |Unremoved([t], t)| == 0
  {
    assert [t][..0] == [];
    assert Recent([t], t) == [t];
  }
}
