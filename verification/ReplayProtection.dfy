/**
 What the replay cache guarantees over whole runs, and how it composes with the freshness window.
 */
module ReplayProtection {
  import opened Basics
  import opened Options
  import opened SignatureCache

  // ── Which recording evicts which key ──────────────────────────────────

  /** Position of the first queue entry of `k` (the queue length if it has none). */
  function First(order: seq<string>, k: string): nat {
    if order == [] || order[0] == k then 0 else 1 + First(order[1..], k)
  }

  lemma {:induction false} FirstBound(order: seq<string>, k: string)
    ensures First(order, k) <= |order|
    ensures k in order <==> First(order, k) < |order|
  {
    if order == [] || order[0] == k {
    } else {
      FirstBound(order[1..], k);
      assert order == [order[0]] + order[1..];
    }
  }

  lemma {:induction false} FirstPush(order: seq<string>, x: string, k: string)
    ensures First(order + [x], k) == if k in order || k == x then First(order, k) else |order| + 1
  {
    if order != [] && order[0] != k {
      FirstPush(order[1..], x, k);
      assert (order + [x])[1..] == order[1..] + [x];
      assert order == [order[0]] + order[1..];
    } else if order == [] {
      assert ([] + [x])[1..] == [];
    }
  }

  /** The live keys that do not leave the queue before `k`, `k` among them. */
  function Behind(p: Pool, k: string): set<string> {
    set y | y in p.keys && First(p.order, y) >= First(p.order, k)
  }

  /** Eviction removes `k` exactly when too many live keys are behind it; else it changes nothing behind `k`. */
  lemma {:induction false} EvictionIff(p: Pool, cap: nat, k: string)
    requires Queued(p) && k in p.keys
    ensures k in Evict(p, cap).keys <==> |Behind(p, k)| <= cap
    ensures |Behind(p, k)| <= cap ==>
      Evict(p, cap).keys[k] == p.keys[k] && Behind(Evict(p, cap), k) == Behind(p, k) && Queued(Evict(p, cap))
    decreases |p.order|
  {
    assert Behind(p, k) <= p.keys.Keys;
    if |p.keys| <= cap {
      SubsetSize(Behind(p, k), p.keys.Keys);
    } else {
      QueuedPop(p);
      var q := Pool(p.keys - {p.order[0]}, p.order[1..]);
      if p.order[0] == k {
        assert Behind(p, k) == p.keys.Keys;
        EvictShrinks(q, cap);
      } else {
        forall y ensures y in Behind(q, k) <==> y in Behind(p, k) {
          assert y != p.order[0] ==> First(p.order, y) == 1 + First(q.order, y);
        }
        assert Behind(q, k) == Behind(p, k);
        EvictionIff(q, cap, k);
      }
    }
  }

  lemma {:induction false} EvictShrinks(p: Pool, cap: nat)
    ensures Evict(p, cap).keys.Keys <= p.keys.Keys
    decreases |p.order|
  {
    if |p.keys| <= cap || p.order == [] {
    } else {
      EvictShrinks(Pool(p.keys - {p.order[0]}, p.order[1..]), cap);
    }
  }

  /** Recording another key puts at most that key behind `k`; a key new to the queue, always. */
  lemma PushBehind(p: Pool, x: string, now: nat, k: string)
    requires Queued(p) && k in p.keys && x != k
    ensures var p' := Pool(p.keys[x := now], p.order + [x]);
      && Behind(p', k) <= Behind(p, k) + {x}
      && (x !in p.order ==> Behind(p', k) == Behind(p, k) + {x} && x !in Behind(p, k))
      && |Behind(p', k)| <= |Behind(p, k)| + 1
  {
    var p' := Pool(p.keys[x := now], p.order + [x]);
    forall y | y in p'.keys ensures First(p'.order, y) == First(p.order, y) {
      FirstPush(p.order, x, y);
    }
    FirstBound(p.order, x);
    FirstBound(p.order, k);
    SubsetSize(Behind(p', k), Behind(p, k) + {x});
    SubsetSize(Behind(p, k) + {x}, Behind(p, k) + {x});
    assert |Behind(p, k) + {x}| <= |Behind(p, k)| + 1;
  }

  /** A key recorded for the first time has every other live key in front of it. */
  lemma NewKeyLast(p: Pool, k: string, now: nat)
    requires Queued(p) && k !in p.order
    ensures Behind(Pool(p.keys[k := now], p.order + [k]), k) == {k}
  {
    var p' := Pool(p.keys[k := now], p.order + [k]);
    FirstPush(p.order, k, k);
    FirstBound(p.order, k);
    forall y | y in p'.keys && y != k ensures First(p'.order, y) < First(p'.order, k) {
      FirstPush(p.order, k, y);
      FirstBound(p.order, y);
    }
  }

  // ── Runs of checks ────────────────────────────────────────────────────

  datatype Request = Request(key: string, now: nat)

  function After(cap: nat, ttl: nat, es: seq<Request>, n: nat): Pool
    requires n <= |es|
  {
    if n == 0 then Pool(map[], [])
    else Check(After(cap, ttl, es, n - 1), es[n - 1].key, cap, ttl, es[n - 1].now).0
  }

  /** `Some(first)` if request `i` is answered as a replay, `None` if it is recorded. */
  function Answer(cap: nat, ttl: nat, es: seq<Request>, i: nat): Option<nat>
    requires i < |es|
  {
    Check(After(cap, ttl, es, i), es[i].key, cap, ttl, es[i].now).1
  }

  function Recordings(cap: nat, ttl: nat, es: seq<Request>, m: nat, n: nat): nat
    requires m <= n <= |es|
    decreases n
  {
    if n == m then 0
    else Recordings(cap, ttl, es, m, n - 1) + (if Answer(cap, ttl, es, n - 1).None? then 1 else 0)
  }

  lemma {:induction false} RunQueued(cap: nat, ttl: nat, es: seq<Request>, n: nat)
    requires n <= |es|
    ensures Queued(After(cap, ttl, es, n)) && |After(cap, ttl, es, n).keys| <= cap
    ensures forall k :: k in After(cap, ttl, es, n).order ==> exists i :: 0 <= i < n && es[i].key == k
  {
    if n == 0 {
    } else {
      RunQueued(cap, ttl, es, n - 1);
      var p, e := After(cap, ttl, es, n - 1), es[n - 1];
      if !Fresh(p, e.key, ttl, e.now) {
        QueuedPush(p, e.key, e.now);
        var pushed := Pool(p.keys[e.key := e.now], p.order + [e.key]);
        EvictFits(pushed, cap);
        EvictSuffix(pushed, cap);
      }
    }
  }

  lemma {:induction false} EvictSuffix(p: Pool, cap: nat)
    ensures forall k :: k in Evict(p, cap).order ==> k in p.order
    decreases |p.order|
  {
    if |p.keys| <= cap || p.order == [] {
    } else {
      EvictSuffix(Pool(p.keys - {p.order[0]}, p.order[1..]), cap);
    }
  }

  /** A live key outlasts as many recordings as fit behind it. */
  lemma {:induction false} KeyOutlasts(cap: nat, ttl: nat, es: seq<Request>, m: nat, n: nat, k: string, t: nat)
    requires m <= n <= |es|
    requires k in After(cap, ttl, es, m).keys && After(cap, ttl, es, m).keys[k] == t
    requires |Behind(After(cap, ttl, es, m), k)| + Recordings(cap, ttl, es, m, n) <= cap
    requires forall i :: m <= i < n && es[i].key == k ==> Age(t, es[i].now) <= ttl
    ensures k in After(cap, ttl, es, n).keys && After(cap, ttl, es, n).keys[k] == t
    ensures |Behind(After(cap, ttl, es, n), k)| <= |Behind(After(cap, ttl, es, m), k)| + Recordings(cap, ttl, es, m, n)
  {
    if n == m {
    } else {
      KeyOutlasts(cap, ttl, es, m, n - 1, k, t);
      RunQueued(cap, ttl, es, n - 1);
      var p, e := After(cap, ttl, es, n - 1), es[n - 1];
      if !Fresh(p, e.key, ttl, e.now) {
        PushBehind(p, e.key, e.now, k);
        QueuedPush(p, e.key, e.now);
        EvictionIff(Pool(p.keys[e.key := e.now], p.order + [e.key]), cap, k);
      }
    }
  }

  // ── The freshness window ──────────────────────────────────────────────

  /** A signed timestamp is stale when it is further than the window from now, on either side. */
  predicate WindowExpired(ts: nat, now: nat, window: nat) {
    (if ts >= now then ts - now else now - ts) > window
  }

  /** A timestamp is fresh from one window before it to one window after it, whichever side the clocks are off. */
  lemma FreshIff(ts: nat, now: nat, window: nat)
    ensures !WindowExpired(ts, now, window) <==> ts - window <= now <= ts + window
  {
  }

  /** A key seen for the first time is recorded, behind every other live key. */
  lemma FirstRecorded(cap: nat, ttl: nat, es: seq<Request>, i: nat)
    requires i < |es| && cap > 0 && forall m :: 0 <= m < i ==> es[m].key != es[i].key
    ensures Answer(cap, ttl, es, i) == None
    ensures var p := After(cap, ttl, es, i + 1);
      es[i].key in p.keys && p.keys[es[i].key] == es[i].now && Behind(p, es[i].key) == {es[i].key}
  {
    var k, t := es[i].key, es[i].now;
    RunQueued(cap, ttl, es, i);
    var p := After(cap, ttl, es, i);
    assert k !in p.order && k !in p.keys;
    NewKeyLast(p, k, t);
    QueuedPush(p, k, t);
    EvictionIff(Pool(p.keys[k := t], p.order + [k]), cap, k);
  }

  /**
   Replay detection: a request first recorded at `es[i].now` is answered as a replay whenever it is sent
   again with its timestamp still inside the window on arrival, as long as fewer than `cap` other
   recordings came in between and the time between its window check and its cache check (the body is
   read in between) is at most the age its timestamp had when it was first recorded.
   */
  lemma ReplayDetected(cap: nat, window: nat, es: seq<Request>, i: nat, j: nat, ts: nat, arrived: nat)
    requires i < j < |es| && es[i].key == es[j].key
    requires forall m, n :: 0 <= m <= n < |es| ==> es[m].now <= es[n].now
    requires forall m :: 0 <= m < i ==> es[m].key != es[i].key
    requires arrived <= es[j].now && !WindowExpired(ts, arrived, window)
    requires ts + (es[j].now - arrived) <= es[i].now
    requires Recordings(cap, window, es, i + 1, j) < cap
    ensures Answer(cap, window, es, i) == None
    ensures Answer(cap, window, es, j) == Some(es[i].now)
  {
    var k, t := es[i].key, es[i].now;
    FirstRecorded(cap, window, es, i);
    assert k in After(cap, window, es, j).keys && After(cap, window, es, j).keys[k] == t by {
      KeyOutlasts(cap, window, es, i + 1, j, k, t);
    }
  }

  /**
   With `delay` between window check and cache check, the record's time to live covers every re-send that
   passes the window exactly when the timestamp was at least `delay` old at the first recording.
   */
  lemma TtlCoversWindowIff(ts: nat, t: nat, window: nat, delay: nat)
    requires !WindowExpired(ts, t, window)
    ensures (forall arrived: nat ::
              t <= arrived && !WindowExpired(ts, arrived, window) ==> Age(t, arrived + delay) <= window)
      <==> ts + delay <= t
  {
    if ts + delay > t {
      assert t <= ts + window && !WindowExpired(ts, ts + window, window) && Age(t, ts + window + delay) > window;
    }
  }

  /** Otherwise the last re-send the window lets through finds the record expired, and is accepted anew. */
  lemma LateReplayAccepted(cap: nat, window: nat, k: string, ts: nat, t: nat, delay: nat)
    requires !WindowExpired(ts, t, window) && t < ts + delay
    ensures var es := [Request(k, t), Request(k, ts + window + delay)];
      && !WindowExpired(ts, es[1].now - delay, window)
      && Answer(cap, window, es, 0) == None && Answer(cap, window, es, 1) == None
  {
    var es := [Request(k, t), Request(k, ts + window + delay)];
    var p := Pool(map[k := t], [k]);
    assert Pool(map[][k := t], [] + [k]) == p;
    assert After(cap, window, es, 1) == Evict(p, cap);
    EvictKeeps(p, cap);
  }

  lemma {:induction false} EvictKeeps(p: Pool, cap: nat)
    ensures forall k :: k in Evict(p, cap).keys ==> k in p.keys && Evict(p, cap).keys[k] == p.keys[k]
    decreases |p.order|
  {
    if |p.keys| <= cap || p.order == [] {
    } else {
      EvictKeeps(Pool(p.keys - {p.order[0]}, p.order[1..]), cap);
    }
  }

  // ── Re-recorded keys ──────────────────────────────────────────────────

  /** The run of the next lemma: `k` is recorded, expires, and is recorded again while `a` is live. */
  const RERECORDING := [Request("k", 0), Request("a", 5), Request("k", 11), Request("b", 12), Request("k", 13)]

  lemma RerecordingPrefix()
    ensures After(2, 10, RERECORDING, 3) == Pool(map["k" := 11, "a" := 5], ["k", "a", "k"])
    ensures Answer(2, 10, RERECORDING, 2) == None
  {
    assert After(2, 10, RERECORDING, 1) == Pool(map["k" := 0], ["k"]);
    assert After(2, 10, RERECORDING, 2) == Pool(map["k" := 0, "a" := 5], ["k", "a"]);
    assert map["k" := 0, "a" := 5]["k" := 11] == map["k" := 11, "a" := 5];
  }

  lemma RerecordingEviction()
    ensures Evict(Pool(map["k" := 11, "a" := 5, "b" := 12], ["k", "a", "k", "b"]), 2)
      == Pool(map["a" := 5, "b" := 12], ["a", "k", "b"])
  {
    var full := map["k" := 11, "a" := 5, "b" := 12];
    assert full.Keys == {"k", "a", "b"} && |full| == 3;
    assert full - {"k"} == map["a" := 5, "b" := 12] && |map["a" := 5, "b" := 12]| == 2;
    assert ["k", "a", "k", "b"][1..] == ["a", "k", "b"];
  }

  /**
   A key that expired and was recorded again still owns its old queue entry, and goes when that entry
   does: here one recording after the second one, with room for two keys, it is forgotten.  With the
   window equal to the time to live, the timestamp 10 is inside it at all three sendings of the key.
   */
  lemma RerecordedKeyForgotten()
    ensures forall i :: 0 <= i < |RERECORDING| && RERECORDING[i].key == "k" ==>
      !WindowExpired(10, RERECORDING[i].now, 10)
    ensures Answer(2, 10, RERECORDING, 2) == None && Recordings(2, 10, RERECORDING, 3, 4) == 1
    ensures Answer(2, 10, RERECORDING, 4) == None
  {
    RerecordingPrefix();
    RerecordingEviction();
    var p := After(2, 10, RERECORDING, 3);
    assert p.keys["b" := 12] == map["k" := 11, "a" := 5, "b" := 12] && p.order + ["b"] == ["k", "a", "k", "b"];
    assert After(2, 10, RERECORDING, 4) == Pool(map["a" := 5, "b" := 12], ["a", "k", "b"]);
  }

  /** Record keys one after the other at the same instant. */
  function RecordAll(p: Pool, xs: seq<string>, cap: nat, now: nat): Pool {
    if xs == [] then p else Record(RecordAll(p, xs[..|xs| - 1], cap, now), xs[|xs| - 1], cap, now)
  }

  predicate NewKeys(xs: seq<string>, order: seq<string>) {
    && (forall i :: 0 <= i < |xs| ==> xs[i] !in order)
    && (forall i, j :: 0 <= i < j < |xs| ==> xs[i] != xs[j])
  }

  /** Recording new keys: as long as `k` lives they all stay behind it. */
  lemma {:induction false} NewKeysBehind(p: Pool, xs: seq<string>, cap: nat, now: nat, k: string)
    requires Queued(p) && k in p.keys && NewKeys(xs, p.order)
    ensures var q := RecordAll(p, xs, cap, now);
      && Queued(q) && (forall x :: x in q.order ==> x in p.order || x in xs)
      && (xs != [] ==> |q.keys| <= cap)
      && (k in q.keys ==> |Behind(q, k)| == |Behind(p, k)| + |xs|)
      && (|Behind(p, k)| + |xs| <= cap ==> k in q.keys)
  {
    if xs == [] {
    } else {
      var init, x := xs[..|xs| - 1], xs[|xs| - 1];
      NewKeysBehind(p, init, cap, now, k);
      var q := RecordAll(p, init, cap, now);
      var pushed := Pool(q.keys[x := now], q.order + [x]);
      assert xs == init + [x];
      assert x !in q.order;
      QueuedPush(q, x, now);
      EvictFits(pushed, cap);
      EvictSuffix(pushed, cap);
      if k in q.keys {
        PushBehind(q, x, now, k);
        EvictionIff(pushed, cap, k);
      } else {
        EvictShrinks(pushed, cap);
        assert k in p.order;
      }
    }
  }

  /** Keys that occur nowhere in the queue, as many as wanted. */
  lemma NewKeysExist(order: seq<string>, n: nat) returns (xs: seq<string>)
    ensures |xs| == n && NewKeys(xs, order)
  {
    var b := LongerThanAll(order);
    xs := seq(n, i requires 0 <= i => seq(b + i, _ => 'x'));
    forall i, j | 0 <= i < j < |xs| ensures xs[i] != xs[j] {
      assert |xs[i]| == b + i && |xs[j]| == b + j;
    }
    forall i | 0 <= i < |xs| ensures xs[i] !in order {
      assert |xs[i]| == b + i;
    }
  }

  lemma {:induction false} LongerThanAll(order: seq<string>) returns (b: nat)
    ensures forall x :: x in order ==> |x| < b
  {
    if order == [] {
      b := 0;
    } else {
      b := LongerThanAll(order[1..]);
      assert order == [order[0]] + order[1..];
      b := if b > |order[0]| then b else |order[0]| + 1;
    }
  }

  /**
   Exactly which live keys are safe: a key outlasts every run of fewer than `cap` new recordings if
   and only if all other live keys leave the queue before it does.  A key on its first recording is
   such a key; one recorded again after expiry need not be.
   */
  lemma OutlastsIff(p: Pool, cap: nat, now: nat, k: string)
    requires Queued(p) && |p.keys| <= cap && k in p.keys
    ensures (forall xs :: NewKeys(xs, p.order) && |xs| < cap ==> k in RecordAll(p, xs, cap, now).keys)
      <==> (forall y :: y in p.keys && y != k ==> First(p.order, y) < First(p.order, k))
  {
    if forall y :: y in p.keys && y != k ==> First(p.order, y) < First(p.order, k) {
      assert Behind(p, k) == {k};
      forall xs | NewKeys(xs, p.order) && |xs| < cap ensures k in RecordAll(p, xs, cap, now).keys {
        NewKeysBehind(p, xs, cap, now, k);
      }
    } else {
      var y :| y in p.keys && y != k && First(p.order, y) >= First(p.order, k);
      SubsetSize({k, y}, Behind(p, k));
      SubsetSize({k}, p.keys.Keys);
      var xs := NewKeysExist(p.order, cap - 1);
      NewKeysBehind(p, xs, cap, now, k);
      var q := RecordAll(p, xs, cap, now);
      SubsetSize(Behind(q, k), q.keys.Keys);
      assert k !in q.keys;
    }
  }
}
