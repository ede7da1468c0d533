/**
 The replay cache: a bounded map from nonce keys to the instant they were verified, with a queue of
 recorded keys as eviction pool, and its interplay with the freshness window of signed timestamps.
 */
module SignatureCache {
  import opened Basics
  import opened Options

  /** `keys` maps a nonce key to its verification instant; `order` holds every key recorded, oldest first. */
  datatype Pool = Pool(keys: map<string, nat>, order: seq<string>)

  /** Every live key still waits in the queue. */
  ghost predicate Queued(p: Pool) {
    forall k :: k in p.keys ==> k in p.order
  }

  /** Pop the queue until the map fits. */
  function Evict(p: Pool, cap: nat): Pool
    decreases |p.order|
  {
    if |p.keys| <= cap || p.order == [] then p
    else Evict(Pool(p.keys - {p.order[0]}, p.order[1..]), cap)
  }

  /** Is the key live and within the time to live? */
  predicate Fresh(p: Pool, key: string, ttl: nat, now: nat) {
    key in p.keys && Age(p.keys[key], now) <= ttl
  }

  function Record(p: Pool, key: string, cap: nat, now: nat): Pool {
    Evict(Pool(p.keys[key := now], p.order + [key]), cap)
  }

  function Check(p: Pool, key: string, cap: nat, ttl: nat, now: nat): (Pool, Option<nat>) {
    if Fresh(p, key, ttl, now) then (p, Some(p.keys[key])) else (Record(p, key, cap, now), None)
  }

  /** With a live key left the queue is not empty, and popping it keeps the others queued. */
  lemma QueuedPop(p: Pool)
    requires Queued(p) && |p.keys| > 0
    ensures p.order != []
    ensures Queued(Pool(p.keys - {p.order[0]}, p.order[1..]))
  {
  }

  /** Evicting from either ends in the same pool. */
  ghost predicate SameEnd(p: Pool, q: Pool, cap: nat) {
    Evict(p, cap) == Evict(q, cap)
  }

  /** One turn of the loop. */
  lemma EvictPops(start: Pool, p: Pool, cap: nat)
    requires Queued(p) && |p.keys| > cap && SameEnd(start, p, cap)
    ensures p.order != []
    ensures var q := Pool(p.keys - {p.order[0]}, p.order[1..]); Queued(q) && SameEnd(start, q, cap)
  {
    QueuedPop(p);
  }

  lemma EvictDone(start: Pool, p: Pool, cap: nat)
    requires |p.keys| <= cap && SameEnd(start, p, cap)
    ensures p == Evict(start, cap)
  {
  }

  lemma QueuedPush(p: Pool, key: string, now: nat)
    requires Queued(p)
    ensures Queued(Pool(p.keys[key := now], p.order + [key]))
  {
  }

  lemma {:induction false} EvictFits(p: Pool, cap: nat)
    requires Queued(p)
    ensures |Evict(p, cap).keys| <= cap && Queued(Evict(p, cap))
    decreases |p.order|
  {
    if |p.keys| <= cap {
    } else {
      QueuedPop(p);
      EvictFits(Pool(p.keys - {p.order[0]}, p.order[1..]), cap);
    }
  }

  class Cache {
    const cap: nat
    const ttl: nat
    var keys: map<string, nat>
    var order: seq<string>

    ghost function View(): Pool
      reads this
    {
      Pool(keys, order)
    }

    ghost predicate Valid()
      reads this
    {
      Queued(View()) && |keys| <= cap
    }

    constructor (cap: nat, ttl: nat)
      ensures Valid() && View() == Pool(map[], []) && this.cap == cap && this.ttl == ttl
    {
      this.cap, this.ttl := cap, ttl;
      this.keys, this.order := map[], [];
    }

    /** The eviction loop ends because the queue shrinks; its "queue exhausted" exit is never taken. */
    method EvictOldest()
      requires Queued(View())
      modifies this`keys, this`order
      ensures Valid() && View() == Evict(old(View()), cap)
    {
      while |keys| > cap
        invariant Queued(View())
        invariant SameEnd(old(View()), View(), cap)
        decreases |order|
      {
        EvictPops(old(View()), View(), cap);
        if order == [] {
          assert false;
          break;
        }
        var k := order[0];
        ghost var popped := Pool(keys - {k}, order[1..]);
        order := order[1..];
        if k in keys {
          keys := keys - {k};
        }
        assert View() == popped;
      }
      EvictDone(old(View()), View(), cap);
    }

    method CheckAndRecord(key: string, now: nat) returns (seen: Option<nat>)
      requires Valid()
      modifies this`keys, this`order
      ensures Valid() && (View(), seen) == Check(old(View()), key, cap, ttl, now)
    {
      if key in keys {
        if Age(keys[key], now) <= ttl {
          return Some(keys[key]);
        }
        keys := keys - {key};
      }
      keys := keys[key := now];
      order := order + [key];
      assert keys == old(keys)[key := now];
      QueuedPush(old(View()), key, now);
      EvictOldest();
      return None;
    }
  }
}
