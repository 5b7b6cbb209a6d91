/**
  What expiry does to the two idempotency stores (cache/idempotency_store.py:54-92 and :95-140): whole histories of
  claims and stores with their times, on both.
 */
module Expiry {
  import opened Wrappers
  import opened Idempotency

  /** A claim or a store that runs at one reading of the clock. */
  datatype Op<+R> = Claim(key: string, hash: string, now: int) | Store(key: string, response: R, now: int)

  predicate InTime<R>(ops: seq<Op<R>>) {
    forall i, j | 0 <= i < j < |ops| :: ops[i].now <= ops[j].now
  }

  // ----- the two stores

  /** A Redis key with its expiry time. */
  datatype Timed<+T> = Timed(value: T, until: int)

  datatype TimedRedis<+R> = TimedRedis(hashes: map<string, Timed<string>>, responses: map<string, Timed<R>>)

  predicate Alive<T>(m: map<string, Timed<T>>, key: string, now: int) {
    key in m && now <= m[key].until
  }

  function RedisClaim<R>(r: TimedRedis<R>, key: string, hash: string, now: int, ttl: nat): (TimedRedis<R>, Outcome<R>) {
    if !Alive(r.hashes, key, now) then (r.(hashes := r.hashes[key := Timed(hash, now + ttl)]), New)
    else if r.hashes[key].value != hash then (r, Mismatch)
    else if Alive(r.responses, key, now) then (r, Duplicate(r.responses[key].value))
    else (r, InProgress)
  }

  /** The response key is set whether or not the claim still stands. */
  function RedisStoreResponse<R>(r: TimedRedis<R>, key: string, response: R, now: int, ttl: nat): TimedRedis<R> {
    r.(responses := r.responses[key := Timed(response, now + ttl)])
  }

  function MemoryRun<R>(ops: seq<Op<R>>, ttl: nat): map<string, Entry<R>> {
    if ops == [] then map[]
    else
      var before := MemoryRun(ops[..|ops| - 1], ttl);
      match ops[|ops| - 1]
      case Claim(key, hash, now) => MemoryClaim(before, key, hash, now, now, ttl).0
      case Store(key, response, _) => MemoryStore(before, key, response)
  }

  function RedisRun<R>(ops: seq<Op<R>>, ttl: nat): TimedRedis<R> {
    if ops == [] then TimedRedis(map[], map[])
    else
      var before := RedisRun(ops[..|ops| - 1], ttl);
      match ops[|ops| - 1]
      case Claim(key, hash, now) => RedisClaim(before, key, hash, now, ttl).0
      case Store(key, response, now) => RedisStoreResponse(before, key, response, now, ttl)
  }

  function MemoryOutcome<R>(ops: seq<Op<R>>, i: nat, ttl: nat): Outcome<R>
    requires i < |ops| && ops[i].Claim?
  {
    MemoryClaim(MemoryRun(ops[..i], ttl), ops[i].key, ops[i].hash, ops[i].now, ops[i].now, ttl).1
  }

  function RedisOutcome<R>(ops: seq<Op<R>>, i: nat, ttl: nat): Outcome<R>
    requires i < |ops| && ops[i].Claim?
  {
    RedisClaim(RedisRun(ops[..i], ttl), ops[i].key, ops[i].hash, ops[i].now, ttl).1
  }

  // ----- what a history says of a key, whatever the store

  /** The claim that holds, or last held, a key: the operation at index. */
  datatype Tenure = Tenure(hash: string, at: int, index: nat)

  datatype Stored<+R> = Stored(response: R, at: int, index: nat)

  predicate Lasts(tenure: Option<Tenure>, now: int, ttl: nat) {
    tenure.Some? && now <= tenure.value.at + ttl
  }

  /** A claim takes the key when nobody holds it, for one time to live. */
  function Holder<R>(ops: seq<Op<R>>, key: string, ttl: nat): Option<Tenure> {
    if ops == [] then None
    else
      var before, op := Holder(ops[..|ops| - 1], key, ttl), ops[|ops| - 1];
      if op.Claim? && op.key == key && !Lasts(before, op.now, ttl) then Some(Tenure(op.hash, op.now, |ops| - 1))
      else before
  }

  function LastStore<R>(ops: seq<Op<R>>, key: string): Option<Stored<R>> {
    if ops == [] then None
    else
      var op := ops[|ops| - 1];
      if op.Store? && op.key == key then Some(Stored(op.response, op.now, |ops| - 1))
      else LastStore(ops[..|ops| - 1], key)
  }

  /** The last response stored, if it was stored since the holder's claim. */
  function OwnResponse<R>(holder: Tenure, stored: Option<Stored<R>>): Option<R> {
    if stored.Some? && stored.value.index > holder.index then Some(stored.value.response) else None
  }

  /**
    Operation i is a claim that repeats a standing claim and finds a response that was stored before that claim was
    made, has not been overwritten since, and still lives.
   */
  predicate IsStale<R>(ops: seq<Op<R>>, i: nat, ttl: nat)
    requires i < |ops|
  {
    ops[i].Claim? &&
    var holder, stored := Holder(ops[..i], ops[i].key, ttl), LastStore(ops[..i], ops[i].key);
    && Lasts(holder, ops[i].now, ttl) && holder.value.hash == ops[i].hash
    && stored.Some? && stored.value.index < holder.value.index && ops[i].now <= stored.value.at + ttl
  }

  // ----- both stores follow the history

  lemma {:induction false} Indices<R>(ops: seq<Op<R>>, key: string, ttl: nat)
    ensures var holder := Holder(ops, key, ttl);
            holder.Some? ==>
              && holder.value.index < |ops| && ops[holder.value.index].Claim?
              && ops[holder.value.index].now == holder.value.at
    ensures var stored := LastStore(ops, key);
            stored.Some? ==>
              && stored.value.index < |ops| && ops[stored.value.index].Store?
              && ops[stored.value.index].now == stored.value.at
  {
    if ops != [] {
      Indices(ops[..|ops| - 1], key, ttl);
    }
  }

  /** In memory a key is there for as long as its claim lasts, with the response stored since. */
  predicate Keeps<R(==)>(
      entries: map<string, Entry<R>>, holder: Option<Tenure>, stored: Option<Stored<R>>, key: string, now: int,
      ttl: nat)
  {
    && (key in entries ==>
          holder.Some? &&
          entries[key] == Entry(Claimed(holder.value.hash, OwnResponse(holder.value, stored)), holder.value.at))
    && (Lasts(holder, now, ttl) ==> key in entries)
  }

  lemma ClaimKeeps<R>(
      entries: map<string, Entry<R>>, holder: Option<Tenure>, stored: Option<Stored<R>>, key: string, now: int,
      ttl: nat,       claimed: string, hash: string, index: nat)
    requires Keeps(entries, holder, stored, key, now, ttl)
    requires stored.Some? ==> stored.value.index < index
    ensures var after := if claimed == key && !Lasts(holder, now, ttl) then Some(Tenure(hash, now, index)) else holder;
            Keeps(MemoryClaim(entries, claimed, hash, now, now, ttl).0, after, stored, key, now, ttl)
  {
  }

  lemma StoreKeeps<R>(
      entries: map<string, Entry<R>>, holder: Option<Tenure>, stored: Option<Stored<R>>, key: string, now: int,
      ttl: nat,       answered: string, response: R, index: nat)
    requires Keeps(entries, holder, stored, key, now, ttl)
    requires holder.Some? ==> holder.value.index < index
    ensures var after := if answered == key then Some(Stored(response, now, index)) else stored;
            Keeps(MemoryStore(entries, answered, response), holder, after, key, now, ttl)
  {
  }

  lemma {:induction false} MemoryFollows<R>(ops: seq<Op<R>>, key: string, now: int, ttl: nat)
    requires InTime(ops) && forall op | op in ops :: op.now <= now
    ensures Keeps(MemoryRun(ops, ttl), Holder(ops, key, ttl), LastStore(ops, key), key, now, ttl)
  {
    hide MemoryClaim, MemoryStore;
    if ops != [] {
      var before, op := ops[..|ops| - 1], ops[|ops| - 1];
      assert forall o | o in before :: o in ops;
      assert forall i | 0 <= i < |before| :: before[i].now <= op.now;
      MemoryFollows(before, key, op.now, ttl);
      Indices(before, key, ttl);
      var entries, holder, stored := MemoryRun(before, ttl), Holder(before, key, ttl), LastStore(before, key);
      match op
      case Claim(claimed, hash, at) => ClaimKeeps(entries, holder, stored, key, at, ttl, claimed, hash, |before|);
      case Store(answered, response, at) =>
        StoreKeeps(entries, holder, stored, key, at, ttl, answered, response, |before|);
    }
  }

  /** On Redis the hash key is the claim's, and the response key the last store's, whatever claim it answered. */
  lemma {:induction false} RedisFollows<R>(ops: seq<Op<R>>, key: string, ttl: nat)
    ensures var r, holder, stored := RedisRun(ops, ttl), Holder(ops, key, ttl), LastStore(ops, key);
            && (key in r.hashes <==> holder.Some?)
            && (holder.Some? ==> r.hashes[key] == Timed(holder.value.hash, holder.value.at + ttl))
            && (key in r.responses <==> stored.Some?)
            && (stored.Some? ==> r.responses[key] == Timed(stored.value.response, stored.value.at + ttl))
  {
    if ops != [] {
      RedisFollows(ops[..|ops| - 1], key, ttl);
    }
  }

  predicate Agree<R(==)>(ops: seq<Op<R>>, i: nat, ttl: nat)
    requires i < |ops| && ops[i].Claim?
  {
    MemoryOutcome(ops, i, ttl) == RedisOutcome(ops, i, ttl)
  }

  /** A claim gets the same answer from both stores unless it finds a stale response, which Redis then replays. */
  lemma AgreeExact<R>(ops: seq<Op<R>>, i: nat, ttl: nat)
    requires InTime(ops) && i < |ops| && ops[i].Claim?
    ensures Agree(ops, i, ttl) <==> !IsStale(ops, i, ttl)
    ensures !Lasts(Holder(ops[..i], ops[i].key, ttl), ops[i].now, ttl) <==> MemoryOutcome(ops, i, ttl).New?
    ensures MemoryOutcome(ops, i, ttl).New? <==> RedisOutcome(ops, i, ttl).New?
    ensures IsStale(ops, i, ttl) ==>
              && MemoryOutcome(ops, i, ttl) == InProgress
              && RedisOutcome(ops, i, ttl) == Duplicate(LastStore(ops[..i], ops[i].key).value.response)
  {
    hide Holder, LastStore, MemoryRun, RedisRun;
    var before, key := ops[..i], ops[i].key;
    assert forall o | o in before :: o.now <= ops[i].now;
    MemoryFollows(before, key, ops[i].now, ttl);
    RedisFollows(before, key, ttl);
    Indices(before, key, ttl);
  }

  /** Over a whole history the stores answer alike exactly when no claim in it finds a stale response. */
  lemma StoresAgreeExact<R>(ops: seq<Op<R>>, ttl: nat)
    requires InTime(ops)
    ensures (forall i | 0 <= i < |ops| && ops[i].Claim? :: Agree(ops, i, ttl)) <==>
            (forall i | 0 <= i < |ops| :: !IsStale(ops, i, ttl))
  {
    hide Agree, IsStale;
    forall i | 0 <= i < |ops| && ops[i].Claim?
      ensures Agree(ops, i, ttl) <==> !IsStale(ops, i, ttl)
    {
      AgreeExact(ops, i, ttl);
    }
    OnlyClaimsAreStale(ops, ttl);
  }

  lemma OnlyClaimsAreStale<R>(ops: seq<Op<R>>, ttl: nat)
    ensures forall i | 0 <= i < |ops| && IsStale(ops, i, ttl) :: ops[i].Claim?
  {
  }

  // ----- what the in-memory store answers, in terms of its answers before

  /** Operation j is a claim of operation i's key that was new and still stands at operation i. */
  predicate StandsAt<R(==)>(ops: seq<Op<R>>, j: nat, i: nat, ttl: nat) {
    && j < i < |ops| && ops[j].Claim? && ops[i].Claim? && ops[j].key == ops[i].key
    && MemoryOutcome(ops, j, ttl) == New && ops[i].now <= ops[j].now + ttl
  }

  lemma {:induction false} HolderIsNew<R>(ops: seq<Op<R>>, key: string, ttl: nat)
    requires InTime(ops)
    ensures var holder := Holder(ops, key, ttl);
            holder.Some? ==>
              var j := holder.value.index;
              && j < |ops| && ops[j].Claim? && ops[j].key == key && ops[j].hash == holder.value.hash
              && ops[j].now == holder.value.at && MemoryOutcome(ops, j, ttl) == New
    ensures forall k: nat | k < |ops| && ops[k].Claim? && ops[k].key == key && MemoryOutcome(ops, k, ttl) == New ::
              Holder(ops, key, ttl).Some? && k <= Holder(ops, key, ttl).value.index
  {
    hide MemoryClaim, MemoryRun, RedisRun;
    if ops != [] {
      var n := |ops| - 1;
      var before := ops[..n];
      assert forall i, j | 0 <= i < j < n :: before[i].now <= before[j].now;
      HolderIsNew(before, key, ttl);
      forall k: nat | k < n && ops[k].Claim?
        ensures MemoryOutcome(before, k, ttl) == MemoryOutcome(ops, k, ttl)
      {
        assert before[..k] == ops[..k];
      }
      if ops[n].Claim? && ops[n].key == key {
        AgreeExact(ops, n, ttl);
      }
    }
  }

  /** With the claim that stands at i for its key, if there is one, in hand. */
  lemma HolderStands<R>(ops: seq<Op<R>>, i: nat, ttl: nat)
    requires InTime(ops) && i < |ops| && ops[i].Claim?
    ensures var holder := Holder(ops[..i], ops[i].key, ttl);
            && (Lasts(holder, ops[i].now, ttl) ==>
                  StandsAt(ops, holder.value.index, i, ttl) && holder.value.hash == ops[holder.value.index].hash)
            && forall j | StandsAt(ops, j, i, ttl) :: Lasts(holder, ops[i].now, ttl) && j == holder.value.index
  {
    hide MemoryClaim, MemoryRun;
    var before := ops[..i];
    assert forall j, k | 0 <= j < k < i :: before[j].now <= before[k].now;
    HolderIsNew(before, ops[i].key, ttl);
    forall k: nat | k < i && ops[k].Claim?
      ensures MemoryOutcome(before, k, ttl) == MemoryOutcome(ops, k, ttl)
    {
      assert before[..k] == ops[..k];
    }
    forall j | StandsAt(ops, j, i, ttl)
      ensures Lasts(Holder(before, ops[i].key, ttl), ops[i].now, ttl) && j == Holder(before, ops[i].key, ttl).value.index
    {
      var h := Holder(before, ops[i].key, ttl).value.index;
      assert j <= h;
      if j < h {
        NoneBetween(ops, j, h, ttl);
      }
    }
  }

  /** A claim that stands keeps later ones from being new. */
  lemma NoneBetween<R>(ops: seq<Op<R>>, j: nat, h: nat, ttl: nat)
    requires InTime(ops) && StandsAt(ops, j, h, ttl)
    ensures MemoryOutcome(ops, h, ttl) != New
  {
    hide MemoryClaim, MemoryRun, Holder;
    var before := ops[..h];
    assert forall k, l | 0 <= k < l < h :: before[k].now <= before[l].now;
    assert before[..j] == ops[..j];
    HolderIsNew(before, ops[h].key, ttl);
    assert MemoryOutcome(before, j, ttl) == New;
    AgreeExact(ops, h, ttl);
  }

  lemma {:induction false} LastStoreExact<R>(ops: seq<Op<R>>, key: string)
    ensures LastStore(ops, key).None? <==> forall k | 0 <= k < |ops| :: !(ops[k].Store? && ops[k].key == key)
    ensures LastStore(ops, key).Some? ==>
              var k := LastStore(ops, key).value.index;
              && k < |ops| && ops[k].Store? && ops[k].key == key && ops[k].response == LastStore(ops, key).value.response
              && forall l | k < l < |ops| :: !(ops[l].Store? && ops[l].key == key)
  {
    if ops != [] {
      var n := |ops| - 1;
      LastStoreExact(ops[..n], key);
      assert forall k | 0 <= k < n :: ops[..n][k] == ops[k];
    }
  }

  /**
    The in-memory store: a claim is new exactly when no new claim of its key still stands. Otherwise it is told mismatch
    when its hash is not the standing claim's, else the last response stored since then, or in progress when none was.
   */
  lemma MemoryExact<R>(ops: seq<Op<R>>, i: nat, ttl: nat)
    requires InTime(ops) && i < |ops| && ops[i].Claim?
    ensures MemoryOutcome(ops, i, ttl).New? <==> forall j: nat :: !StandsAt(ops, j, i, ttl)
    ensures forall j: nat | StandsAt(ops, j, i, ttl) ::
              && (MemoryOutcome(ops, i, ttl).Mismatch? <==> ops[i].hash != ops[j].hash)
              && (MemoryOutcome(ops, i, ttl).InProgress? <==>
                    && ops[i].hash == ops[j].hash
                    && forall k | j < k < i :: !(ops[k].Store? && ops[k].key == ops[i].key))
    ensures forall j: nat, k: nat | StandsAt(ops, j, i, ttl) && ops[i].hash == ops[j].hash && j < k < i
                          && ops[k].Store? && ops[k].key == ops[i].key
                          && (forall l | k < l < i :: !(ops[l].Store? && ops[l].key == ops[i].key)) ::
              MemoryOutcome(ops, i, ttl) == Duplicate(ops[k].response)
  {
    hide MemoryRun, Holder, LastStore;
    var before, key := ops[..i], ops[i].key;
    assert forall j, k | 0 <= j < k < i :: before[j].now <= before[k].now;
    HolderStands(ops, i, ttl);
    LastStoreExact(before, key);
    assert forall k | 0 <= k < i :: before[k] == ops[k];
    Standing(ops, i, ttl);
  }

  /** What memory holds for the key of a claim, once it has pruned. */
  lemma Standing<R>(ops: seq<Op<R>>, i: nat, ttl: nat)
    requires InTime(ops) && i < |ops| && ops[i].Claim?
    ensures var holder, stored := Holder(ops[..i], ops[i].key, ttl), LastStore(ops[..i], ops[i].key);
            && (MemoryOutcome(ops, i, ttl).New? <==> !Lasts(holder, ops[i].now, ttl))
            && (Lasts(holder, ops[i].now, ttl) ==>
                  MemoryOutcome(ops, i, ttl) ==
                  if holder.value.hash != ops[i].hash then Mismatch
                  else if OwnResponse(holder.value, stored).Some? then Duplicate(OwnResponse(holder.value, stored).value)
                  else InProgress)
  {
    hide MemoryRun, Holder, LastStore;
    assert forall o | o in ops[..i] :: o.now <= ops[i].now;
    assert forall j, k | 0 <= j < k < i :: ops[..i][j].now <= ops[..i][k].now;
    MemoryFollows(ops[..i], ops[i].key, ops[i].now, ttl);
    AgreeExact(ops, i, ttl);
  }

  /** A claim, its response, and after the claim has expired two claims by the next caller. */
  function Replay<R>(key: string, hash: string, response: R, stored: int, again: int, third: int): seq<Op<R>> {
    [Claim(key, hash, 0), Store(key, response, stored), Claim(key, hash, again), Claim(key, hash, third)]
  }

  /**
    Histories on which the stores part: the second claim is new on both, and the third is told the old response by
    Redis exactly as long as that response lives. The response may have been stored in time, or by a caller that took
    longer than its own claim lasted.
   */
  lemma ReplayExact<R>(key: string, hash: string, response: R, ttl: nat, stored: int, again: int, third: int)
    requires 0 <= stored <= again && ttl < again <= third <= again + ttl
    ensures var ops := Replay(key, hash, response, stored, again, third);
            && MemoryOutcome(ops, 2, ttl) == RedisOutcome(ops, 2, ttl) == New
            && MemoryOutcome(ops, 3, ttl) == InProgress
            && RedisOutcome(ops, 3, ttl) == if third <= stored + ttl then Duplicate(response) else InProgress
  {
    var ops := Replay(key, hash, response, stored, again, third);
    assert ops[..1] == [ops[0]] && ops[..2] == [ops[0], ops[1]] && ops[..3] == [ops[0], ops[1], ops[2]];
    assert ops[..1][..0] == [] && ops[..2][..1] == ops[..1] && ops[..3][..2] == ops[..2];
    HolderOfReplay(key, hash, response, ttl, stored, again, third);
    AgreeExact(ops, 2, ttl);
    AgreeExact(ops, 3, ttl);
  }

  lemma HolderOfReplay<R>(key: string, hash: string, response: R, ttl: nat, stored: int, again: int, third: int)
    requires 0 <= stored <= again && ttl < again <= third <= again + ttl
    ensures var ops := Replay(key, hash, response, stored, again, third);
            && Holder(ops[..2], key, ttl) == Some(Tenure(hash, 0, 0))
            && Holder(ops[..3], key, ttl) == Some(Tenure(hash, again, 2))
            && LastStore(ops[..2], key) == LastStore(ops[..3], key) == Some(Stored(response, stored, 1))
  {
    var ops := Replay(key, hash, response, stored, again, third);
    assert ops[..1][..0] == [] && ops[..2][..1] == ops[..1] && ops[..3][..2] == ops[..2];
    assert Holder(ops[..1], key, ttl) == Some(Tenure(hash, 0, 0));
    assert LastStore(ops[..1], key) == None;
  }
}
