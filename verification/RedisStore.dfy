/**
  The idempotency store on Redis (cache/idempotency_store.py:95-140): a claim is up to three commands, with other
  clients' commands in between, and a response is stored by a fourth.
 */
module RedisStore {
  import opened Wrappers
  import opened Idempotency

  // ----- the steps, within one time to live: no key expires

  /** Where a client's claim stands. A client whose claim was new may go on to store a response. */
  datatype Progress<+R> = Claiming | ReadingHash | ReadingResponse | Finished(outcome: Outcome<R>)

  datatype Client<+R> = Client(key: string, hash: string, at: Progress<R>)

  /** An operation, logged at the command that settles it. */
  datatype Event<+R> =
    | ClaimedBy(client: nat, key: string, hash: string, outcome: Outcome<R>)
    | StoredBy(client: nat, key: string, response: R)

  datatype State<R> = State(
    hashes: map<string, string>,
    responses: map<string, R>,
    clients: map<nat, Client<R>>,
    log: seq<Event<R>>)

  function Init<R>(): State<R> {
    State(map[], map[], map[], [])
  }

  predicate At<R(==)>(s: State<R>, c: nat, at: Progress<R>) {
    c in s.clients && s.clients[c].at == at
  }

  function Advance<R>(s: State<R>, c: nat, at: Progress<R>): State<R>
    requires c in s.clients
  {
    s.(clients := s.clients[c := s.clients[c].(at := at)])
  }

  function Settle<R>(s: State<R>, c: nat, outcome: Outcome<R>): State<R>
    requires c in s.clients
  {
    Advance(s, c, Finished(outcome))
      .(log := s.log + [ClaimedBy(c, s.clients[c].key, s.clients[c].hash, outcome)])
  }

  function Arrive<R>(s: State<R>, c: nat, key: string, hash: string): State<R> {
    s.(clients := s.clients[c := Client(key, hash, Claiming)])
  }

  /** SET hash-key hash NX */
  function SetNx<R>(s: State<R>, c: nat): State<R>
    requires At(s, c, Claiming)
  {
    var client := s.clients[c];
    if client.key in s.hashes then Advance(s, c, ReadingHash)
    else Settle(s, c, New).(hashes := s.hashes[client.key := client.hash])
  }

  /** GET hash-key; a missing hash sends the client back to the start. */
  function GetHash<R>(s: State<R>, c: nat): State<R>
    requires At(s, c, ReadingHash)
  {
    var client := s.clients[c];
    if client.key !in s.hashes then Advance(s, c, Claiming)
    else if s.hashes[client.key] != client.hash then Settle(s, c, Mismatch)
    else Advance(s, c, ReadingResponse)
  }

  /** GET response-key */
  function GetResponse<R>(s: State<R>, c: nat): State<R>
    requires At(s, c, ReadingResponse)
  {
    var client := s.clients[c];
    if client.key in s.responses then Settle(s, c, Duplicate(s.responses[client.key])) else Settle(s, c, InProgress)
  }

  /** SET response-key response, by a client whose claim was new. */
  function Store<R>(s: State<R>, c: nat, response: R): State<R>
    requires At(s, c, Finished(New))
  {
    var key := s.clients[c].key;
    s.(responses := s.responses[key := response], log := s.log + [StoredBy(c, key, response)])
  }

  ghost predicate Next<R(!new)>(s: State<R>, t: State<R>) {
    || (exists c, key, hash :: c !in s.clients && t == Arrive(s, c, key, hash))
    || (exists c :: At(s, c, Claiming) && t == SetNx(s, c))
    || (exists c :: At(s, c, ReadingHash) && t == GetHash(s, c))
    || (exists c :: At(s, c, ReadingResponse) && t == GetResponse(s, c))
    || (exists c, response :: At(s, c, Finished(New)) && t == Store(s, c, response))
  }

  ghost predicate Reached<R(!new)>(s: State<R>, n: nat)
    decreases n
  {
    if n == 0 then s == Init() else exists p :: Reached(p, n - 1) && Next(p, s)
  }

  // ----- the order of atomic operations it is equivalent to

  /** The store after one logged operation, done atomically. */
  function Do<R>(store: Idempotency.Store<R>, e: Event<R>): Idempotency.Store<R> {
    match e
    case ClaimedBy(_, key, hash, _) => AtomicClaim(store, key, hash).0
    case StoredBy(_, key, response) => AtomicStore(store, key, response)
  }

  function Replay<R>(log: seq<Event<R>>): Idempotency.Store<R> {
    if log == [] then map[] else Do(Replay(log[..|log| - 1]), log[|log| - 1])
  }

  /** Every claim in the log came out as the atomic claim does at that point. */
  predicate Consistent<R(==)>(log: seq<Event<R>>) {
    log == [] ||
    var before, e := log[..|log| - 1], log[|log| - 1];
    Consistent(before) && (e.ClaimedBy? ==> AtomicClaim(Replay(before), e.key, e.hash).1 == e.outcome)
  }

  function NewClaims<R>(log: seq<Event<R>>, key: string): nat {
    if log == [] then 0
    else
      var e := log[|log| - 1];
      NewClaims(log[..|log| - 1], key) + if e.ClaimedBy? && e.key == key && e.outcome.New? then 1 else 0
  }

  // ----- what the answers in a consistent log mean

  predicate IsClaim<R>(e: Event<R>, key: string) {
    e.ClaimedBy? && e.key == key
  }

  predicate IsStore<R>(e: Event<R>, key: string) {
    e.StoredBy? && e.key == key
  }

  /** log[j] is the first claim of the key. */
  predicate FirstClaim<R>(log: seq<Event<R>>, j: nat, key: string) {
    j < |log| && IsClaim(log[j], key) && forall k | 0 <= k < j :: !IsClaim(log[k], key)
  }

  /** log[k] is the last store of the key. */
  predicate LastStore<R>(log: seq<Event<R>>, k: nat, key: string) {
    k < |log| && IsStore(log[k], key) && forall l | k < l < |log| :: !IsStore(log[l], key)
  }

  lemma {:induction false} HeldExact<R>(log: seq<Event<R>>, key: string)
    ensures key in Replay(log) <==> exists k :: 0 <= k < |log| && IsClaim(log[k], key)
  {
    if log != [] {
      var n := |log| - 1;
      HeldExact(log[..n], key);
      assert forall k | 0 <= k < n :: log[..n][k] == log[k];
    }
  }

  /** A key is held with the hash of its first claim, and the response of the last store after that. */
  lemma {:induction false} HeldAs<R>(log: seq<Event<R>>, j: nat, key: string)
    requires FirstClaim(log, j, key)
    ensures key in Replay(log) && Replay(log)[key].hash == log[j].hash
    ensures Replay(log)[key].response.None? <==> forall k | j < k < |log| :: !IsStore(log[k], key)
    ensures forall k: nat | j < k && LastStore(log, k, key) :: Replay(log)[key].response == Some(log[k].response)
  {
    var n := |log| - 1;
    var before, e := log[..n], log[n];
    assert forall k | 0 <= k < n :: before[k] == log[k];
    if j == n {
      HeldExact(before, key);
    } else {
      HeldAs(before, j, key);
      forall k: nat | LastStore(log, k, key) && k < n
        ensures LastStore(before, k, key)
      {
      }
    }
  }

  /** In a consistent log a claim is new exactly when it is the first of its key. */
  lemma NewExact<R>(log: seq<Event<R>>, i: nat)
    requires Consistent(log) && i < |log| && log[i].ClaimedBy?
    ensures log[i].outcome.New? <==> forall k | 0 <= k < i :: !(log[k].ClaimedBy? && log[k].key == log[i].key)
  {
    ConsistentAt(log, i);
    HeldExact(log[..i], log[i].key);
  }

  /**
    A later claim is told mismatch when its hash is not the first claim's, else the response last stored since then, or
    in progress when there is none.
   */
  lemma LaterExact<R>(log: seq<Event<R>>, i: nat, j: nat)
    requires Consistent(log) && j < i < |log| && log[i].ClaimedBy? && FirstClaim(log, j, log[i].key)
    ensures log[i].outcome.Mismatch? <==> log[i].hash != log[j].hash
    ensures log[i].outcome.InProgress? <==>
              log[i].hash == log[j].hash && forall k | j < k < i :: !IsStore(log[k], log[i].key)
    ensures forall k: nat | log[i].hash == log[j].hash && j < k && LastStore(log[..i], k, log[i].key) ::
              log[i].outcome == Duplicate(log[k].response)
  {
    ConsistentAt(log, i);
    assert forall k | 0 <= k < i :: log[..i][k] == log[k];
    HeldAs(log[..i], j, log[i].key);
  }

  lemma {:induction false} ConsistentAt<R>(log: seq<Event<R>>, i: nat)
    requires Consistent(log) && i < |log|
    ensures Consistent(log[..i])
    ensures log[i].ClaimedBy? ==> AtomicClaim(Replay(log[..i]), log[i].key, log[i].hash).1 == log[i].outcome
    decreases |log|
  {
    if i < |log| - 1 {
      ConsistentAt(log[..|log| - 1], i);
      assert log[..|log| - 1][..i] == log[..i];
    }
  }

  function Abstract<R>(s: State<R>): Idempotency.Store<R> {
    map k | k in s.hashes :: Claimed(s.hashes[k], if k in s.responses then Some(s.responses[k]) else None)
  }

  /** A logged event is an operation of a client: its one finished claim, or a store after a new claim. */
  predicate IsOperation<R(==)>(s: State<R>, e: Event<R>) {
    && e.client in s.clients && e.key == s.clients[e.client].key
    && match e
       case ClaimedBy(c, _, hash, outcome) => hash == s.clients[c].hash && s.clients[c].at == Finished(outcome)
       case StoredBy(c, _, _) => s.clients[c].at == Finished(New)
  }

  /** The log holds operations of the clients and nothing else, and no claim twice. */
  ghost predicate LogIsExact<R(!new)>(s: State<R>) {
    && (forall i | 0 <= i < |s.log| :: IsOperation(s, s.log[i]))
    && (forall i, j | 0 <= i < j < |s.log| && s.log[i].ClaimedBy? && s.log[j].ClaimedBy? ::
          s.log[i].client != s.log[j].client)
  }

  ghost predicate Inv<R(!new)>(s: State<R>) {
    && Replay(s.log) == Abstract(s)
    && Consistent(s.log)
    && (forall key :: NewClaims(s.log, key) == if key in s.hashes then 1 else 0)
    && s.responses.Keys <= s.hashes.Keys
    && (forall c | c in s.clients && !s.clients[c].at.Claiming? :: s.clients[c].key in s.hashes)
    && (forall c | c in s.clients && s.clients[c].at.ReadingResponse? :: s.hashes[s.clients[c].key] == s.clients[c].hash)
    && (forall c | c in s.clients && s.clients[c].at.Finished? ::
          ClaimedBy(c, s.clients[c].key, s.clients[c].hash, s.clients[c].at.outcome) in s.log)
  }

  lemma LogOne<R>(log: seq<Event<R>>, e: Event<R>)
    ensures Replay(log + [e]) == Do(Replay(log), e)
    ensures Consistent(log + [e]) <==>
            Consistent(log) && (e.ClaimedBy? ==> AtomicClaim(Replay(log), e.key, e.hash).1 == e.outcome)
    ensures forall key :: NewClaims(log + [e], key) ==
              NewClaims(log, key) + if e.ClaimedBy? && e.key == key && e.outcome.New? then 1 else 0
  {
    assert (log + [e])[..|log|] == log;
  }

  lemma ArriveKeeps<R(!new)>(s: State<R>, c: nat, key: string, hash: string)
    requires Inv(s) && c !in s.clients
    ensures Inv(Arrive(s, c, key, hash))
  {
    assert Abstract(Arrive(s, c, key, hash)) == Abstract(s);
  }

  lemma AdvanceKeeps<R(!new)>(s: State<R>, c: nat, at: Progress<R>)
    requires Inv(s) && c in s.clients && !at.Finished? && s.clients[c].key in s.hashes
    requires at.ReadingResponse? ==> s.hashes[s.clients[c].key] == s.clients[c].hash
    ensures Inv(Advance(s, c, at))
  {
    assert Abstract(Advance(s, c, at)) == Abstract(s);
  }

  lemma NewClaimAbstract<R(!new)>(s: State<R>, c: nat)
    requires At(s, c, Claiming) && s.clients[c].key !in s.hashes && s.responses.Keys <= s.hashes.Keys
    ensures Abstract(SetNx(s, c)) == Abstract(s)[s.clients[c].key := Claimed(s.clients[c].hash, None)]
  {
    assert s.clients[c].key !in s.responses;
  }

  lemma NewClaimKeeps<R(!new)>(s: State<R>, c: nat)
    requires Inv(s) && At(s, c, Claiming) && s.clients[c].key !in s.hashes
    ensures Inv(SetNx(s, c))
  {
    hide NewClaims, Consistent, Replay, Abstract;
    var client, t := s.clients[c], SetNx(s, c);
    LogOne(s.log, ClaimedBy(c, client.key, client.hash, New));
    NewClaimAbstract(s, c);
    assert client.key !in Abstract(s) by { AbstractKeys(s); }
    assert t.hashes == s.hashes[client.key := client.hash];
  }

  lemma AbstractKeys<R>(s: State<R>)
    ensures Abstract(s).Keys == s.hashes.Keys
  {
  }

  lemma SetNxKeeps<R(!new)>(s: State<R>, c: nat)
    requires Inv(s) && At(s, c, Claiming)
    ensures Inv(SetNx(s, c))
  {
    hide Inv;
    if s.clients[c].key in s.hashes {
      AdvanceKeeps(s, c, ReadingHash);
    } else {
      NewClaimKeeps(s, c);
    }
  }

  lemma GetHashKeeps<R(!new)>(s: State<R>, c: nat)
    requires Inv(s) && At(s, c, ReadingHash)
    ensures Inv(GetHash(s, c))
  {
    if s.hashes[s.clients[c].key] != s.clients[c].hash {
      SettleKeeps(s, c, Mismatch);
    } else {
      AdvanceKeeps(s, c, ReadingResponse);
    }
  }

  lemma GetResponseKeeps<R(!new)>(s: State<R>, c: nat)
    requires Inv(s) && At(s, c, ReadingResponse)
    ensures Inv(GetResponse(s, c))
  {
    var key := s.clients[c].key;
    SettleKeeps(s, c, if key in s.responses then Duplicate(s.responses[key]) else InProgress);
  }

  lemma SettleKeeps<R(!new)>(s: State<R>, c: nat, outcome: Outcome<R>)
    requires Inv(s) && c in s.clients && s.clients[c].key in s.hashes
    requires AtomicClaim(Abstract(s), s.clients[c].key, s.clients[c].hash) == (Abstract(s), outcome)
    ensures Inv(Settle(s, c, outcome))
  {
    LogOne(s.log, ClaimedBy(c, s.clients[c].key, s.clients[c].hash, outcome));
    assert Abstract(Settle(s, c, outcome)) == Abstract(s);
  }

  lemma StoreKeeps<R(!new)>(s: State<R>, c: nat, response: R)
    requires Inv(s) && At(s, c, Finished(New))
    ensures Inv(Store(s, c, response))
  {
    var key, t := s.clients[c].key, Store(s, c, response);
    LogOne(s.log, StoredBy(c, key, response));
    assert Abstract(t) == AtomicStore(Abstract(s), key, response);
  }

  lemma NextKeeps<R(!new)>(s: State<R>, t: State<R>)
    requires Inv(s) && Next(s, t)
    ensures Inv(t)
  {
    hide Inv, Arrive, SetNx, GetHash, GetResponse, Store;
    if c, key, hash :| c !in s.clients && t == Arrive(s, c, key, hash) {
      ArriveKeeps(s, c, key, hash);
    } else if c :| At(s, c, Claiming) && t == SetNx(s, c) {
      SetNxKeeps(s, c);
    } else if c :| At(s, c, ReadingHash) && t == GetHash(s, c) {
      GetHashKeeps(s, c);
    } else if c :| At(s, c, ReadingResponse) && t == GetResponse(s, c) {
      GetResponseKeeps(s, c);
    } else {
      var c, response :| At(s, c, Finished(New)) && t == Store(s, c, response);
      StoreKeeps(s, c, response);
    }
  }

  // -- the log stays exact

  lemma ArriveExact<R(!new)>(s: State<R>, c: nat, key: string, hash: string)
    requires LogIsExact(s) && c !in s.clients
    ensures LogIsExact(Arrive(s, c, key, hash))
  {
    var t := Arrive(s, c, key, hash);
    forall i | 0 <= i < |t.log|
      ensures IsOperation(t, t.log[i])
    {
      assert IsOperation(s, s.log[i]);
    }
  }

  /** A client that has not finished its claim is in no event yet. */
  lemma UnfinishedMoves<R(!new)>(s: State<R>, t: State<R>, c: nat)
    requires LogIsExact(s) && c in s.clients && !s.clients[c].at.Finished?
    requires c in t.clients && t.clients == s.clients[c := t.clients[c]] && t.log == s.log
    ensures LogIsExact(t) && forall i | 0 <= i < |s.log| :: s.log[i].client != c
  {
    forall i | 0 <= i < |s.log|
      ensures IsOperation(t, t.log[i]) && s.log[i].client != c
    {
      assert IsOperation(s, s.log[i]);
    }
  }

  lemma SettleExact<R(!new)>(s: State<R>, c: nat, outcome: Outcome<R>)
    requires LogIsExact(s) && c in s.clients && !s.clients[c].at.Finished?
    ensures LogIsExact(Settle(s, c, outcome))
  {
    hide IsOperation;
    var moved, t := Advance(s, c, Finished(outcome)), Settle(s, c, outcome);
    UnfinishedMoves(s, moved, c);
    forall i | 0 <= i < |t.log|
      ensures IsOperation(t, t.log[i])
    {
      if i < |s.log| {
        SameClients(moved, t, s.log[i]);
      } else {
        SettledIsOperation(s, c, outcome);
      }
    }
  }

  lemma SameClients<R>(s: State<R>, t: State<R>, e: Event<R>)
    requires t.clients == s.clients
    ensures IsOperation(t, e) <==> IsOperation(s, e)
  {
  }

  lemma SettledIsOperation<R>(s: State<R>, c: nat, outcome: Outcome<R>)
    requires c in s.clients
    ensures IsOperation(Settle(s, c, outcome), ClaimedBy(c, s.clients[c].key, s.clients[c].hash, outcome))
  {
  }

  lemma StoreExact<R(!new)>(s: State<R>, c: nat, response: R)
    requires LogIsExact(s) && At(s, c, Finished(New))
    ensures LogIsExact(Store(s, c, response))
  {
    var t := Store(s, c, response);
    forall i | 0 <= i < |t.log|
      ensures IsOperation(t, t.log[i])
    {
      if i < |s.log| {
        SameClients(s, t, s.log[i]);
      }
    }
  }

  lemma SetNxExact<R(!new)>(s: State<R>, c: nat)
    requires LogIsExact(s) && At(s, c, Claiming)
    ensures LogIsExact(SetNx(s, c))
  {
    hide LogIsExact;
    if s.clients[c].key in s.hashes {
      UnfinishedMoves(s, Advance(s, c, ReadingHash), c);
    } else {
      SettleExact(s, c, New);
      HashesApart(Settle(s, c, New), s.hashes[s.clients[c].key := s.clients[c].hash]);
    }
  }

  lemma GetHashExact<R(!new)>(s: State<R>, c: nat)
    requires LogIsExact(s) && At(s, c, ReadingHash)
    ensures LogIsExact(GetHash(s, c))
  {
    hide LogIsExact;
    UnfinishedMoves(s, Advance(s, c, Claiming), c);
    UnfinishedMoves(s, Advance(s, c, ReadingResponse), c);
    SettleExact(s, c, Mismatch);
  }

  lemma GetResponseExact<R(!new)>(s: State<R>, c: nat)
    requires LogIsExact(s) && At(s, c, ReadingResponse)
    ensures LogIsExact(GetResponse(s, c))
  {
    hide LogIsExact;
    var key := s.clients[c].key;
    SettleExact(s, c, if key in s.responses then Duplicate(s.responses[key]) else InProgress);
  }

  lemma HashesApart<R(!new)>(s: State<R>, hashes: map<string, string>)
    requires LogIsExact(s)
    ensures LogIsExact(s.(hashes := hashes))
  {
    forall e | e in s.log
      ensures IsOperation(s.(hashes := hashes), e) <==> IsOperation(s, e)
    {
      SameClients(s, s.(hashes := hashes), e);
    }
  }

  lemma NextExact<R(!new)>(s: State<R>, t: State<R>)
    requires LogIsExact(s) && Next(s, t)
    ensures LogIsExact(t)
  {
    hide LogIsExact, Arrive, SetNx, GetHash, GetResponse, Store;
    if c, key, hash :| c !in s.clients && t == Arrive(s, c, key, hash) {
      ArriveExact(s, c, key, hash);
    } else if c :| At(s, c, Claiming) && t == SetNx(s, c) {
      SetNxExact(s, c);
    } else if c :| At(s, c, ReadingHash) && t == GetHash(s, c) {
      GetHashExact(s, c);
    } else if c :| At(s, c, ReadingResponse) && t == GetResponse(s, c) {
      GetResponseExact(s, c);
    } else {
      var c, response :| At(s, c, Finished(New)) && t == Store(s, c, response);
      StoreExact(s, c, response);
    }
  }

  lemma {:induction false} ReachedKeeps<R(!new)>(s: State<R>, n: nat)
    requires Reached(s, n)
    ensures Inv(s) && LogIsExact(s)
    decreases n
  {
    hide Inv, LogIsExact, Next;
    if n == 0 {
      InitOk<R>();
    } else {
      var p :| Reached(p, n - 1) && Next(p, s);
      ReachedKeeps(p, n - 1);
      NextKeeps(p, s);
      NextExact(p, s);
    }
  }

  lemma InitOk<R(!new)>()
    ensures Inv<R>(Init()) && LogIsExact<R>(Init())
  {
  }

  /**
    Within one time to live every interleaving of commands is equivalent to the atomic operations in the order in
    which they were settled. The log of those is made of the clients' operations, each finished claim once and each
    store after a new claim; every claim got the answer the atomic store gives at its place, Redis ends up holding
    what the atomic store holds, and a key is claimed anew once at most.
   */
  lemma Linearizable<R(!new)>(s: State<R>, n: nat)
    requires Reached(s, n)
    ensures Consistent(s.log) && Replay(s.log) == Abstract(s)
    ensures LogIsExact(s)
    ensures forall key :: NewClaims(s.log, key) == if key in s.hashes then 1 else 0
    ensures forall c | c in s.clients && s.clients[c].at.Finished? ::
              ClaimedBy(c, s.clients[c].key, s.clients[c].hash, s.clients[c].at.outcome) in s.log
  {
    ReachedKeeps(s, n);
  }

  lemma ReachNext<R(!new)>(s: State<R>, t: State<R>, n: nat)
    requires Reached(s, n) && Next(s, t)
    ensures Reached(t, n + 1)
  {
    hide Next;
  }

  lemma FirstCommand<R(!new)>(s: State<R>, c: nat)
    requires At(s, c, Claiming)
    ensures var t, client := SetNx(s, c), s.clients[c];
            && Next(s, t) && c in t.clients && t.responses == s.responses
            && t.clients[c].key == client.key && t.clients[c].hash == client.hash
            && t.hashes == (if client.key in s.hashes then s.hashes else s.hashes[client.key := client.hash])
            && t.clients[c].at == if client.key in s.hashes then ReadingHash else Finished(New)
  {
  }

  lemma SecondCommand<R(!new)>(s: State<R>, c: nat)
    requires At(s, c, ReadingHash) && s.clients[c].key in s.hashes
    ensures var t, client := GetHash(s, c), s.clients[c];
            && Next(s, t) && c in t.clients && t.responses == s.responses && t.hashes == s.hashes
            && t.clients[c].key == client.key && t.clients[c].hash == client.hash
            && t.clients[c].at == if s.hashes[client.key] != client.hash then Finished(Mismatch) else ReadingResponse
  {
  }

  lemma ThirdCommand<R(!new)>(s: State<R>, c: nat)
    requires At(s, c, ReadingResponse)
    ensures var t, key := GetResponse(s, c), s.clients[c].key;
            && Next(s, t) && c in t.clients && t.responses == s.responses && t.hashes == s.hashes
            && t.clients[c].at == Finished(if key in s.responses then Duplicate(s.responses[key]) else InProgress)
  {
  }

  /** A client that is not interrupted gets its answer in at most three commands, from what is on Redis. */
  lemma ClaimsAlone<R(!new)>(s: State<R>, n: nat, c: nat) returns (t: State<R>, m: nat)
    requires Reached(s, n) && At(s, c, Claiming)
    ensures Reached(t, n + m) && m <= 3 && c in t.clients
    ensures var key, hash := s.clients[c].key, s.clients[c].hash;
            && t.clients[c].at == Finished(
                 if key !in s.hashes then New
                 else if s.hashes[key] != hash then Mismatch
                 else if key in s.responses then Duplicate(s.responses[key])
                 else InProgress)
            && t.hashes == (if key in s.hashes then s.hashes else s.hashes[key := hash]) && t.responses == s.responses
  {
    hide SetNx, GetHash, GetResponse, Next, Reached;
    var key := s.clients[c].key;
    FirstCommand(s, c);
    t, m := SetNx(s, c), 1;
    ReachNext(s, t, n);
    if key in s.hashes {
      var u := t;
      SecondCommand(u, c);
      t, m := GetHash(u, c), 2;
      ReachNext(u, t, n + 1);
      if s.hashes[key] == s.clients[c].hash {
        var v := t;
        ThirdCommand(v, c);
        t, m := GetResponse(v, c), 3;
        ReachNext(v, t, n + 2);
      }
    }
  }

  /** The client whose claim was new can store its response, which every later reading finds. */
  lemma CanStoreResponse<R(!new)>(s: State<R>, n: nat, c: nat, response: R) returns (t: State<R>)
    requires Reached(s, n) && At(s, c, Finished(New))
    ensures Reached(t, n + 1) && t.hashes == s.hashes && t.responses == s.responses[s.clients[c].key := response]
  {
    t := Store(s, c, response);
    assert Next(s, t);
  }

  /** Operations are settled one at a time, while they are under way: the log keeps the order of real time. */
  lemma NextSettlesOne<R(!new)>(s: State<R>, t: State<R>)
    requires Next(s, t)
    ensures SettlesAtMostOne(s, t)
  {
    hide SettlesAtMostOne, Arrive, SetNx, GetHash, GetResponse, Store;
    if c, key, hash :| c !in s.clients && t == Arrive(s, c, key, hash) {
      ArriveLog(s, c, key, hash);
    } else if c :| At(s, c, Claiming) && t == SetNx(s, c) {
      ClaimStepLog(s, t, c);
    } else if c :| At(s, c, ReadingHash) && t == GetHash(s, c) {
      ClaimStepLog(s, t, c);
    } else if c :| At(s, c, ReadingResponse) && t == GetResponse(s, c) {
      ClaimStepLog(s, t, c);
    } else {
      var c, response :| At(s, c, Finished(New)) && t == Store(s, c, response);
      StoredLog(s, c, response);
    }
  }

  /** A claim is settled between its arrival and its answer, a store after its claim was answered new. */
  predicate IsUnderWay<R(==)>(s: State<R>, e: Event<R>) {
    e.client in s.clients && (e.ClaimedBy? <==> !s.clients[e.client].at.Finished?)
  }

  ghost predicate SettlesAtMostOne<R(!new)>(s: State<R>, t: State<R>) {
    t.log == s.log || exists e :: t.log == s.log + [e] && IsOperation(t, e) && IsUnderWay(s, e)
  }

  lemma ArriveLog<R(!new)>(s: State<R>, c: nat, key: string, hash: string)
    ensures SettlesAtMostOne(s, Arrive(s, c, key, hash))
  {
  }

  lemma StoredLog<R(!new)>(s: State<R>, c: nat, response: R)
    requires At(s, c, Finished(New))
    ensures SettlesAtMostOne(s, Store(s, c, response))
  {
    var e := StoredBy(c, s.clients[c].key, response);
    assert IsOperation(Store(s, c, response), e) && IsUnderWay(s, e);
  }

  lemma ClaimStepLog<R(!new)>(s: State<R>, t: State<R>, c: nat)
    requires c in s.clients && !s.clients[c].at.Finished?
    requires || (At(s, c, Claiming) && t == SetNx(s, c))
             || (At(s, c, ReadingHash) && t == GetHash(s, c))
             || (At(s, c, ReadingResponse) && t == GetResponse(s, c))
    ensures SettlesAtMostOne(s, t)
  {
    if t.clients[c].at.Finished? {
      var e := ClaimedBy(c, s.clients[c].key, s.clients[c].hash, t.clients[c].at.outcome);
      assert t.log == s.log + [e] && IsOperation(t, e) && IsUnderWay(s, e);
    }
  }
}
