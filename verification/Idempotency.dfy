/** The idempotency store: one atomic claim a key, in memory (cache/idempotency_store.py:54-92). */
module Idempotency {
  import opened Wrappers

  datatype Outcome<+R> = New | Duplicate(response: R) | Mismatch | InProgress

  /** A claimed key: the hash it was claimed with, and the response once there is one. */
  datatype Claimed<+R> = Claimed(hash: string, response: Option<R>)

  type Store<R> = map<string, Claimed<R>>

  /** The atomic claim every implementation has to look like. */
  function AtomicClaim<R>(store: Store<R>, key: string, hash: string): (Store<R>, Outcome<R>) {
    if key !in store then (store[key := Claimed(hash, None)], New)
    else if store[key].hash != hash then (store, Mismatch)
    else if store[key].response.Some? then (store, Duplicate(store[key].response.value))
    else (store, InProgress)
  }

  function AtomicStore<R>(store: Store<R>, key: string, response: R): Store<R> {
    if key in store then store[key := store[key].(response := Some(response))] else store
  }

  /** A claim takes a free key, and otherwise changes nothing and says what the key holds. */
  lemma ClaimExact<R>(store: Store<R>, key: string, hash: string)
    ensures var (after, outcome) := AtomicClaim(store, key, hash);
            && (outcome.New? <==> key !in store)
            && (outcome.Mismatch? <==> key in store && store[key].hash != hash)
            && (outcome.InProgress? <==> key in store && store[key] == Claimed(hash, None))
            && (outcome.Duplicate? <==> key in store && store[key].hash == hash && store[key].response.Some?)
            && (outcome.Duplicate? ==> store[key] == Claimed(hash, Some(outcome.response)))
            && after == if outcome.New? then store[key := Claimed(hash, None)] else store
  {
  }

  // ----- the in-memory store, with expiry

  datatype Entry<+R> = Entry(claimed: Claimed<R>, claimedAt: int)

  /** Entries not older than the time to live. */
  function Unexpired<R>(entries: map<string, Entry<R>>, now: int, ttl: nat): map<string, Entry<R>> {
    map k | k in entries && now - entries[k].claimedAt <= ttl :: entries[k]
  }

  function View<R>(entries: map<string, Entry<R>>): Store<R> {
    map k | k in entries :: entries[k].claimed
  }

  /** claim, with the clock read once for pruning and again for a new entry. */
  function MemoryClaim<R>(entries: map<string, Entry<R>>, key: string, hash: string, now: int, claimedAt: int, ttl: nat)
    : (map<string, Entry<R>>, Outcome<R>)
  {
    var live := Unexpired(entries, now, ttl);
    if key !in live then (live[key := Entry(Claimed(hash, None), claimedAt)], New)
    else if live[key].claimed.hash != hash then (live, Mismatch)
    else if live[key].claimed.response.Some? then (live, Duplicate(live[key].claimed.response.value))
    else (live, InProgress)
  }

  function MemoryStore<R>(entries: map<string, Entry<R>>, key: string, response: R): map<string, Entry<R>> {
    if key in entries then entries[key := entries[key].(claimed := entries[key].claimed.(response := Some(response)))]
    else entries
  }

  class InMemoryIdempotencyStore<R> {
    const ttl: nat
    var entries: map<string, Entry<R>>

    constructor (ttlSeconds: nat)
      ensures ttl == ttlSeconds && entries == map[]
    {
      ttl, entries := ttlSeconds, map[];
    }

    method PruneExpired(now: int)
      modifies this
      ensures entries == Unexpired(old(entries), now, ttl)
    {
      var todo := entries.Keys;
      var kept := entries;
      while todo != {}
        invariant todo <= entries.Keys
        invariant kept == map k | k in entries && (k in todo || now - entries[k].claimedAt <= ttl) :: entries[k]
      {
        var k :| k in todo;
        if now - entries[k].claimedAt > ttl {
          kept := kept - {k};
        }
        todo := todo - {k};
      }
      entries := kept;
    }

    /** The claim that expired entries have no part in, seen on the simple store. */
    method Claim(key: string, requestHash: string, now: int, claimedAt: int) returns (outcome: Outcome<R>)
      modifies this
      ensures (entries, outcome) == MemoryClaim(old(entries), key, requestHash, now, claimedAt, ttl)
      ensures (View(entries), outcome) ==
              AtomicClaim(View(Unexpired(old(entries), now, ttl)), key, requestHash)
    {
      PruneExpired(now);
      ghost var live := entries;
      if key !in entries {
        entries := entries[key := Entry(Claimed(requestHash, None), claimedAt)];
        assert View(entries) == View(live)[key := Claimed(requestHash, None)];
        return New;
      }
      var existing := entries[key].claimed;
      if existing.hash != requestHash {
        return Mismatch;
      }
      match existing.response
      case Some(response) => return Duplicate(response);
      case None => return InProgress;
    }

    method StoreResponse(key: string, response: R)
      modifies this
      ensures entries == MemoryStore(old(entries), key, response)
      ensures View(entries) == AtomicStore(View(old(entries)), key, response)
    {
      ghost var before := entries;
      if key in entries {
        entries := entries[key := entries[key].(claimed := entries[key].claimed.(response := Some(response)))];
        assert View(entries) == AtomicStore(View(before), key, response);
      }
    }
  }
}
