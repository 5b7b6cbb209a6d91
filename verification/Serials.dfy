/**
  Serial numbers drawn by concurrent calls (security/mock_hsm.py:71-74). There is no lock: a call loads the counter,
  stores one more than it loaded, and then reads the counter again for the text; others may run in between.
 */
module Serials {

  /** How far a draw has got: what it loaded, and in the end what it read back. */
  datatype Stage = Loaded(value: nat) | Stored | Read(value: nat)

  /** disturbed: another call has stored since this one loaded, and before it read. */
  datatype Draw = Draw(stage: Stage, disturbed: bool)

  /** peak is the highest the counter has been. */
  datatype State = State(counter: nat, draws: map<nat, Draw>, peak: nat)

  function Init(): State {
    State(0, map[], 0)
  }

  function Load(s: State, c: nat): State {
    s.(draws := s.draws[c := Draw(Loaded(s.counter), false)])
  }

  predicate CanStore(s: State, c: nat) {
    c in s.draws && s.draws[c].stage.Loaded?
  }

  /** What a store by another call does to a draw. */
  function Disturb(d: Draw): Draw {
    if d.stage.Read? then d else d.(disturbed := true)
  }

  function Store(s: State, c: nat): State
    requires CanStore(s, c)
  {
    var n := s.draws[c].stage.value + 1;
    State(n, map d | d in s.draws :: if d == c then s.draws[c].(stage := Stored) else Disturb(s.draws[d]),
          if n > s.peak then n else s.peak)
  }

  predicate CanRead(s: State, c: nat) {
    c in s.draws && s.draws[c].stage.Stored?
  }

  function ReadBack(s: State, c: nat): State
    requires CanRead(s, c)
  {
    s.(draws := s.draws[c := s.draws[c].(stage := Read(s.counter))])
  }

  datatype Action = Loads(c: nat) | Stores(c: nat) | Reads(c: nat)

  predicate Step(s: State, a: Action, t: State) {
    match a
    case Loads(c) => c !in s.draws && t == Load(s, c)
    case Stores(c) => CanStore(s, c) && t == Store(s, c)
    case Reads(c) => CanRead(s, c) && t == ReadBack(s, c)
  }

  // ----- what a state says

  predicate HasRead(s: State, c: nat) {
    c in s.draws && s.draws[c].stage.Read?
  }

  predicate HasStored(s: State, c: nat) {
    c in s.draws && !s.draws[c].stage.Loaded?
  }

  /** No two calls were given the same number. */
  ghost predicate Distinct(s: State) {
    forall c, d | HasRead(s, c) && HasRead(s, d) && s.draws[c].stage == s.draws[d].stage :: c == d
  }

  ghost predicate Undisturbed(s: State) {
    forall c | c in s.draws :: !s.draws[c].disturbed
  }

  ghost predicate AllRead(s: State) {
    forall c | c in s.draws :: HasRead(s, c)
  }

  function Storers(s: State): set<nat> {
    set c | c in s.draws && HasStored(s, c)
  }

  function Readers(s: State): set<nat> {
    set c | c in s.draws && HasRead(s, c)
  }

  function Numbers(s: State): set<nat> {
    set c | c in Readers(s) :: s.draws[c].stage.value
  }

  /** As many stores as the counter has ever counted: no update has been lost. */
  predicate NoneLost(s: State) {
    s.peak == |Storers(s)|
  }

  /** The counter has passed a number that nobody was given. */
  ghost predicate Passed(s: State) {
    exists n :: 1 <= n < s.counter && n !in Numbers(s)
  }

  predicate DisturbedStorer(s: State, c: nat) {
    HasStored(s, c) && s.draws[c].disturbed
  }

  // ----- the invariant

  /** While nothing is disturbed, calls take turns. */
  ghost predicate TakeTurns(s: State) {
    && Distinct(s)
    && (forall c | HasRead(s, c) :: s.draws[c].stage.value <= s.counter)
    && (forall c | CanStore(s, c) :: s.draws[c].stage.value == s.counter)
    && (forall c, d | CanRead(s, c) && CanRead(s, d) :: c == d)
    && (forall c, d | CanRead(s, c) && HasRead(s, d) :: s.draws[d].stage.value < s.counter)
  }

  ghost predicate InvCounts(s: State) {
    && s.counter <= s.peak <= |Storers(s)|
    && (Storers(s) != {} ==> s.counter >= 1)
    && (forall c | HasRead(s, c) :: 1 <= s.draws[c].stage.value <= s.peak)
    && (forall c | CanStore(s, c) :: s.draws[c].stage.value <= s.peak)
    && (NoneLost(s) ==> s.counter == s.peak)
    && (NoneLost(s) ==> forall c | CanStore(s, c) && s.draws[c].disturbed :: s.draws[c].stage.value < s.counter)
  }

  /** Once a call that stores has been disturbed, an update is lost, a number shared, or a number passed over. */
  ghost predicate InvDoom(s: State) {
    forall c | DisturbedStorer(s, c) && NoneLost(s) && Distinct(s) :: Passed(s)
  }

  ghost predicate Inv(s: State) {
    (Undisturbed(s) ==> TakeTurns(s)) && InvCounts(s) && InvDoom(s)
  }

  // ----- counting

  function UpTo(n: nat): (s: set<nat>)
    ensures forall v: nat :: v in s <==> 1 <= v <= n
  {
    if n == 0 then {} else UpTo(n - 1) + {n}
  }

  lemma {:induction false} UpToSize(n: nat)
    ensures |UpTo(n)| == n
  {
    if n > 0 {
      UpToSize(n - 1);
    }
  }

  lemma SubsetSize(a: set<nat>, b: set<nat>)
    requires a <= b
    ensures |a| <= |b|
    ensures |a| == |b| ==> a == b
  {
    assert b == a + (b - a);
    if |a| == |b| {
      assert |b - a| == 0;
    }
  }

  function ValuesOf(s: State, readers: set<nat>): set<nat>
    requires readers <= Readers(s)
  {
    set c | c in readers :: s.draws[c].stage.value
  }

  lemma {:induction false} ValuesSize(s: State, readers: set<nat>)
    requires readers <= Readers(s)
    ensures |ValuesOf(s, readers)| <= |readers|
    ensures Distinct(s) ==> |ValuesOf(s, readers)| == |readers|
    decreases |readers|
  {
    if readers != {} {
      var c :| c in readers;
      var rest, v := readers - {c}, s.draws[c].stage.value;
      ValuesSize(s, rest);
      assert ValuesOf(s, readers) == ValuesOf(s, rest) + {v};
      if Distinct(s) {
        forall d | d in rest
          ensures s.draws[d].stage.value != v
        {
          assert HasRead(s, c) && HasRead(s, d);
        }
        assert v !in ValuesOf(s, rest);
      }
    } else {
      assert ValuesOf(s, readers) == {};
    }
  }

  // ----- every step keeps the invariant

  lemma LoadKeeps(s: State, c: nat)
    requires Inv(s) && c !in s.draws
    ensures Inv(Load(s, c))
  {
    hide TakeTurns, InvCounts, NoneLost, Passed, Distinct;
    var t := Load(s, c);
    LoadSame(s, c);
    if Undisturbed(t) {
      LoadTurns(s, c);
    }
    LoadCounts(s, c);
    forall d | DisturbedStorer(t, d) && NoneLost(t) && Distinct(t)
      ensures Passed(t)
    {
      assert DisturbedStorer(s, d);
      LoadDistinct(s, c);
      PassedSame(s, t);
    }
  }

  lemma PassedSame(s: State, t: State)
    requires t.counter == s.counter && Numbers(t) == Numbers(s) && Storers(t) == Storers(s) && t.peak == s.peak
    ensures (Passed(t) <==> Passed(s)) && (NoneLost(t) <==> NoneLost(s))
  {
  }

  lemma LoadTurns(s: State, c: nat)
    requires Inv(s) && c !in s.draws && Undisturbed(Load(s, c))
    ensures TakeTurns(Load(s, c))
  {
    var t := Load(s, c);
    assert forall d | d in s.draws :: d in t.draws && t.draws[d] == s.draws[d];
    assert Undisturbed(s);
    assert forall d :: (CanRead(t, d) <==> CanRead(s, d)) && (HasRead(t, d) <==> HasRead(s, d));
    assert forall d | d != c :: CanStore(t, d) <==> CanStore(s, d);
  }

  lemma LoadCounts(s: State, c: nat)
    requires InvCounts(s) && c !in s.draws
    ensures InvCounts(Load(s, c))
  {
    var t := Load(s, c);
    LoadSame(s, c);
    assert forall d :: HasRead(t, d) <==> HasRead(s, d);
    assert forall d | d != c :: CanStore(t, d) <==> CanStore(s, d);
  }

  lemma LoadSame(s: State, c: nat)
    requires c !in s.draws
    ensures Storers(Load(s, c)) == Storers(s) && Readers(Load(s, c)) == Readers(s)
    ensures Numbers(Load(s, c)) == Numbers(s)
  {
  }

  lemma LoadDistinct(s: State, c: nat)
    requires c !in s.draws && Distinct(Load(s, c))
    ensures Distinct(s)
  {
    var t := Load(s, c);
    forall d, e | HasRead(s, d) && HasRead(s, e) && s.draws[d].stage == s.draws[e].stage
      ensures d == e
    {
      assert HasRead(t, d) && HasRead(t, e);
    }
  }

  lemma StoreSame(s: State, c: nat)
    requires CanStore(s, c)
    ensures Storers(Store(s, c)) == Storers(s) + {c} && |Storers(Store(s, c))| == |Storers(s)| + 1
    ensures Readers(Store(s, c)) == Readers(s) && Numbers(Store(s, c)) == Numbers(s)
    ensures Distinct(Store(s, c)) ==> Distinct(s)
  {
    var t := Store(s, c);
    assert forall d | HasRead(s, d) :: HasRead(t, d) && t.draws[d] == s.draws[d];
  }

  lemma StoreTurns(s: State, c: nat)
    requires Inv(s) && CanStore(s, c) && Undisturbed(Store(s, c))
    ensures TakeTurns(Store(s, c))
  {
    var t := Store(s, c);
    forall d | d in s.draws
      ensures !s.draws[d].disturbed && (d != c ==> HasRead(s, d))
    {
      assert !t.draws[d].disturbed;
    }
    assert Undisturbed(s);
  }

  /** If no update is lost by it, the store counts one on, and the call was not disturbed. */
  lemma StoreCounts(s: State, c: nat)
    requires InvCounts(s) && CanStore(s, c)
    ensures InvCounts(Store(s, c))
    ensures NoneLost(Store(s, c)) ==>
              NoneLost(s) && Store(s, c).counter == s.counter + 1 && !s.draws[c].disturbed
  {
    StoreSame(s, c);
    var t := Store(s, c);
    assert c in Storers(t);
  }

  /** A call that has stored and not read, when another stores: one number too few has been given out. */
  lemma OnePassed(s: State, d: nat)
    requires InvCounts(s) && NoneLost(s) && CanRead(s, d)
    ensures exists n :: 1 <= n <= s.counter && n !in Numbers(s)
  {
    var readers := Readers(s);
    assert readers <= Storers(s) - {d} && d in Storers(s);
    SubsetSize(readers, Storers(s) - {d});
    ValuesSize(s, readers);
    assert ValuesOf(s, readers) == Numbers(s);
    UpToSize(s.counter);
    if forall n | 1 <= n <= s.counter :: n in Numbers(s) {
      SubsetSize(UpTo(s.counter), Numbers(s));
      assert false;
    }
  }

  lemma StoreDooms(s: State, c: nat, d: nat)
    requires Inv(s) && CanStore(s, c)
    requires DisturbedStorer(Store(s, c), d) && NoneLost(Store(s, c)) && Distinct(Store(s, c))
    ensures Passed(Store(s, c))
  {
    StoreSame(s, c);
    StoreCounts(s, c);
    if DisturbedStorer(s, d) {
      assert Passed(s);
    } else {
      assert CanRead(s, d);
      OnePassed(s, d);
    }
  }

  lemma StoreKeeps(s: State, c: nat)
    requires Inv(s) && CanStore(s, c)
    ensures Inv(Store(s, c))
  {
    hide TakeTurns, InvCounts, Passed, Store, NoneLost, Distinct;
    var t := Store(s, c);
    if Undisturbed(t) {
      StoreTurns(s, c);
    }
    StoreCounts(s, c);
    forall d | DisturbedStorer(t, d) && NoneLost(t) && Distinct(t)
      ensures Passed(t)
    {
      StoreDooms(s, c, d);
    }
  }

  lemma ReadSame(s: State, c: nat)
    requires CanRead(s, c)
    ensures Storers(ReadBack(s, c)) == Storers(s) && Numbers(ReadBack(s, c)) == Numbers(s) + {s.counter}
    ensures Distinct(ReadBack(s, c)) ==> Distinct(s)
  {
    var t := ReadBack(s, c);
    assert forall d | HasRead(s, d) :: HasRead(t, d) && t.draws[d] == s.draws[d];
    assert Readers(t) == Readers(s) + {c};
    forall n | n in Numbers(t)
      ensures n in Numbers(s) + {s.counter}
    {
      var d :| d in Readers(t) && n == t.draws[d].stage.value;
      assert d != c ==> d in Readers(s);
    }
    forall n | n in Numbers(s) + {s.counter}
      ensures n in Numbers(t)
    {
      if n == s.counter {
        assert c in Readers(t) && t.draws[c].stage.value == n;
      } else {
        var d :| d in Readers(s) && n == s.draws[d].stage.value;
        assert d in Readers(t) && t.draws[d].stage.value == n;
      }
    }
  }

  lemma ReadTurns(s: State, c: nat)
    requires Inv(s) && CanRead(s, c) && Undisturbed(ReadBack(s, c))
    ensures TakeTurns(ReadBack(s, c))
  {
    var t := ReadBack(s, c);
    forall d | d in s.draws
      ensures !s.draws[d].disturbed
    {
      assert !t.draws[d].disturbed;
    }
    assert Undisturbed(s) && TakeTurns(s);
    assert forall d | d != c :: (CanRead(t, d) <==> CanRead(s, d)) && (HasRead(t, d) <==> HasRead(s, d));
    assert forall d :: CanStore(t, d) <==> CanStore(s, d);
    assert forall d :: !CanRead(t, d);
  }

  lemma ReadCounts(s: State, c: nat)
    requires InvCounts(s) && CanRead(s, c)
    ensures InvCounts(ReadBack(s, c))
  {
    ReadSame(s, c);
    assert c in Storers(s);
  }

  lemma ReadKeeps(s: State, c: nat)
    requires Inv(s) && CanRead(s, c)
    ensures Inv(ReadBack(s, c))
  {
    hide TakeTurns, InvCounts, Distinct;
    var t := ReadBack(s, c);
    ReadSame(s, c);
    if Undisturbed(t) {
      ReadTurns(s, c);
    }
    ReadCounts(s, c);
    forall d | DisturbedStorer(t, d) && NoneLost(t) && Distinct(t)
      ensures Passed(t)
    {
      assert DisturbedStorer(s, d);
      var n :| 1 <= n < s.counter && n !in Numbers(s);
      assert n !in Numbers(t);
    }
  }

  lemma StepKeeps(s: State, a: Action, t: State)
    requires Inv(s) && Step(s, a, t)
    ensures Inv(t)
  {
    hide Inv, Load, Store, ReadBack;
    match a
    case Loads(c) => LoadKeeps(s, c);
    case Stores(c) => StoreKeeps(s, c);
    case Reads(c) => ReadKeeps(s, c);
  }

  lemma InitOk()
    ensures Inv(Init())
  {
  }

  // ----- who shares a number

  /**
    Calls of which none was disturbed have all been given different numbers; and once every call has its number, they
    are all different exactly when no call stored between the load and the read of another.
   */
  lemma DistinctExact(s: State)
    requires Inv(s)
    ensures Undisturbed(s) ==> Distinct(s)
    ensures AllRead(s) ==> (Distinct(s) <==> Undisturbed(s))
  {
    hide InvCounts, Passed, TakeTurns;
    if Undisturbed(s) {
      TurnsDistinct(s);
    } else if AllRead(s) && Distinct(s) {
      var c :| c in s.draws && s.draws[c].disturbed;
      assert HasRead(s, c) && DisturbedStorer(s, c);
      NothingPassed(s);
    }
  }

  /** Of two calls alone: they are given one number exactly when one of them was disturbed by the other. */
  lemma TwoShareExact(s: State, c: nat, d: nat)
    requires Inv(s) && AllRead(s) && c != d && s.draws.Keys == {c, d}
    ensures s.draws[c].stage == s.draws[d].stage <==> s.draws[c].disturbed || s.draws[d].disturbed
  {
    DistinctExact(s);
    assert HasRead(s, c) && HasRead(s, d);
    assert forall e | HasRead(s, e) :: e == c || e == d;
    assert forall e | e in s.draws :: e == c || e == d;
  }

  lemma TurnsDistinct(s: State)
    requires TakeTurns(s)
    ensures Distinct(s)
  {
  }

  lemma NothingPassed(s: State)
    requires InvCounts(s) && AllRead(s) && Distinct(s)
    ensures NoneLost(s) && !Passed(s)
  {
    hide Distinct;
    assert forall c | c in s.draws :: HasRead(s, c);
    assert Storers(s) == Readers(s);
    ValuesSize(s, Readers(s));
    assert ValuesOf(s, Readers(s)) == Numbers(s);
    forall n | n in Numbers(s)
      ensures n in UpTo(s.peak)
    {
      var c :| c in Readers(s) && n == s.draws[c].stage.value;
      assert HasRead(s, c);
    }
    UpToSize(s.peak);
    SubsetSize(Numbers(s), UpTo(s.peak));
  }

  // ----- two calls that do

  ghost predicate IsRun(states: seq<State>, actions: seq<Action>) {
    && |states| == |actions| + 1 && states[0] == Init()
    && forall i | 0 <= i < |actions| :: Step(states[i], actions[i], states[i + 1])
  }

  /** Both calls store before either reads: both are given number two. */
  lemma BothRead(c: nat, d: nat) returns (states: seq<State>, actions: seq<Action>)
    requires c != d
    ensures IsRun(states, actions)
    ensures var s := states[|actions|];
            HasRead(s, c) && HasRead(s, d) && s.draws[c].stage == s.draws[d].stage == Read(2)
  {
    var s1 := Load(Init(), c);
    var s2 := Store(s1, c);
    var s3 := Load(s2, d);
    var s4 := Store(s3, d);
    var s5 := ReadBack(s4, c);
    var s6 := ReadBack(s5, d);
    states := [Init(), s1, s2, s3, s4, s5, s6];
    actions := [Loads(c), Stores(c), Loads(d), Stores(d), Reads(c), Reads(d)];
  }
}
