/**
 The insertion counter of the duplicate table has 64 bits.  Up to 2^64 marks the table is the one of the
 unbounded counter, so everything proved of that one holds; after the wrap the newest entries count
 as the oldest, and a mark can crowd out the one just before it.
 */
module WrappedDedup {
  import opened Basics
  import opened SendDeduper

  ghost predicate StepsTo<K(!new)>(t: Table<K>, e: Event<K>, window: nat, capacity: nat, t': Table<K>) {
    match e
    case Mark(k, at) => MarkedTo(t, k, capacity, at, t')
    case Check(_, at) => t' == Table(Purge(t.entries, window, at), t.last)
  }

  /** The tables of a run, from the empty one on. */
  ghost predicate Tables<K(!new)>(es: seq<Event<K>>, ts: seq<Table<K>>, window: nat, capacity: nat) {
    && |ts| == |es| + 1 && ts[0] == Table(map[], 0)
    && forall i :: 0 <= i < |es| ==> StepsTo(ts[i], es[i], window, capacity, ts[i + 1])
  }

  // ── Before the wrap ───────────────────────────────────────────────────

  ghost predicate Counted<K(!new)>(es: seq<Event<K>>, n: nat, window: nat, capacity: nat)
    requires n <= |es|
  {
    After(es, n, window, capacity).last == CountMarks(es, 0, n) && Numbered(After(es, n, window, capacity))
  }

  lemma {:induction false} CounterCounts<K(!new)>(es: seq<Event<K>>, n: nat, window: nat, capacity: nat)
    requires n <= |es|
    ensures Counted(es, n, window, capacity)
  {
    if n == 0 {
    } else {
      CounterCounts(es, n - 1, window, capacity);
      assert Counted(es, n, window, capacity) by {
        var t := After(es, n - 1, window, capacity);
        if es[n - 1].Mark? {
          MarkedNumbered(t, es[n - 1].key, capacity, es[n - 1].at);
        }
      }
    }
  }

  lemma {:induction false} MarksGrow<K>(es: seq<Event<K>>, m: nat, n: nat)
    requires m <= n <= |es|
    ensures CountMarks(es, 0, m) <= CountMarks(es, 0, n)
  {
    if m == n {
    } else {
      MarksGrow(es, m, n - 1);
    }
  }

  ghost predicate Unwrapped<K(!new)>(es: seq<Event<K>>, ts: seq<Table<K>>, n: nat, window: nat, capacity: nat)
    requires n <= |es| && n < |ts|
  {
    ts[n] == After(es, n, window, capacity)
  }

  /** With fewer than 2^64 marks the table is the one of the unbounded counter. */
  lemma {:induction false} RunUnwrapped<K(!new)>(
      es: seq<Event<K>>, ts: seq<Table<K>>, n: nat, window: nat, capacity: nat)
    requires Tables(es, ts, window, capacity) && n <= |es| && CountMarks(es, 0, n) < SEQ_MODULUS
    ensures Unwrapped(es, ts, n, window, capacity)
  {
    if n == 0 {
    } else {
      var e := es[n - 1];
      MarksGrow(es, n - 1, n);
      RunUnwrapped(es, ts, n - 1, window, capacity);
      assert StepsTo(ts[n - 1], e, window, capacity, ts[n - 1 + 1]);
      assert Unwrapped(es, ts, n, window, capacity) by {
        CounterCounts(es, n - 1, window, capacity);
        if e.Mark? {
          MarkedUnwrapped(ts[n - 1], e.key, capacity, e.at, ts[n]);
        }
      }
    }
  }

  /** The exact report condition, for the table as it is: over every run of fewer than 2^64 marks. */
  lemma TableReportsIff<K(!new)>(
      es: seq<Event<K>>, ts: seq<Table<K>>, n: nat, window: nat, capacity: nat, k: K, now: nat)
    requires Tables(es, ts, window, capacity) && n <= |es| && CountMarks(es, 0, n) < SEQ_MODULUS
    requires Monotone(es) && forall j :: 0 <= j < n ==> es[j].at <= now
    ensures var i := Latest(es, n, k);
      Reported(ts[n], k, window, now) <==> i >= 0 && now - es[i].at < window && Survives(es, i, n, capacity)
  {
    RunUnwrapped(es, ts, n, window, capacity);
    ReportedIff(es, n, window, capacity, k, now);
  }

  // ── After it ──────────────────────────────────────────────────────────

  /** `x` over and over, up to the last number but one; then `a`, `b` and `c`. */
  function Wrapping<K>(x: K, a: K, b: K, c: K): seq<Event<K>> {
    seq(SEQ_MODULUS - 2, _ => Mark(x, 0)) + [Mark(a, 0), Mark(b, 0), Mark(c, 0)]
  }

  lemma MarkAt<K(!new)>(es: seq<Event<K>>, ts: seq<Table<K>>, window: nat, capacity: nat, i: nat)
    requires Tables(es, ts, window, capacity) && i < |es| && es[i].Mark?
    ensures MarkedTo(ts[i], es[i].key, capacity, es[i].at, ts[i + 1])
  {
    assert StepsTo(ts[i], es[i], window, capacity, ts[i + 1]);
  }

  lemma EventAt<K(!new)>(x: K, a: K, b: K, c: K, i: nat)
    requires i < |Wrapping(x, a, b, c)|
    ensures |Wrapping(x, a, b, c)| == SEQ_MODULUS + 1
    ensures Wrapping(x, a, b, c)[i] ==
      Mark(if i < SEQ_MODULUS - 2 then x else if i == SEQ_MODULUS - 2 then a
           else if i == SEQ_MODULUS - 1 then b else c, 0)
  {
  }

  /** One mark in a table of at most one, with room for two. */
  lemma RoomyMark<K(!new)>(t: Table<K>, key: K, t': Table<K>)
    requires |t.entries| <= 1 && MarkedTo(t, key, 2, 0, t')
    ensures t'.entries == t.entries[key := Entry(0, t'.last)]
  {
  }

  /** One mark in a full table of two whose lower number is known. */
  lemma FullMark<K(!new)>(t: Table<K>, low: K, high: K, key: K, t': Table<K>)
    requires low != high && t.entries.Keys == {low, high} && t.entries[low].order < t.entries[high].order
    requires key != high && MarkedTo(t, key, 2, 0, t')
    ensures t'.entries == map[high := t.entries[high], key := Entry(0, t'.last)]
  {
    var kept :| RoomMade(t.entries, 2, kept) && t'.entries == kept[key := Entry(0, t'.last)];
    assert |t.entries.Keys| == 2;
    var k :| IsOldest(t.entries, k) && kept == t.entries - {k};
    assert k == low;
  }

  lemma {:induction false} Repeated<K(!new)>(x: K, a: K, b: K, c: K, ts: seq<Table<K>>, window: nat, n: nat)
    requires Tables(Wrapping(x, a, b, c), ts, window, 2) && 0 < n <= SEQ_MODULUS - 2
    ensures n < |ts| && ts[n] == Table(map[x := Entry(0, n)], n)
  {
    EventAt(x, a, b, c, n - 1);
    MarkAt(Wrapping(x, a, b, c), ts, window, 2, n - 1);
    if n == 1 {
      RoomyMark(ts[0], x, ts[1]);
    } else {
      Repeated(x, a, b, c, ts, window, n - 1);
      RoomyMark(ts[n - 1], x, ts[n]);
      assert map[x := Entry(0, n - 1)][x := Entry(0, n)] == map[x := Entry(0, n)];
    }
  }

  lemma UpToTheLast<K(!new)>(x: K, a: K, b: K, c: K, ts: seq<Table<K>>, window: nat)
    requires x != a && Tables(Wrapping(x, a, b, c), ts, window, 2)
    ensures |ts| == SEQ_MODULUS + 2
    ensures ts[SEQ_MODULUS - 1]
      == Table(map[x := Entry(0, SEQ_MODULUS - 2), a := Entry(0, SEQ_MODULUS - 1)], SEQ_MODULUS - 1)
  {
    var n := SEQ_MODULUS - 2;
    EventAt(x, a, b, c, n);
    Repeated(x, a, b, c, ts, window, n);
    MarkAt(Wrapping(x, a, b, c), ts, window, 2, n);
    RoomyMark(ts[n], a, ts[n + 1]);
  }

  /** The mark of `b` falls to the very next one, though the table has room for two. */
  lemma WrapForgetsNewest<K(!new)>(x: K, a: K, b: K, c: K, ts: seq<Table<K>>, window: nat)
    requires x != a && a != b && b != c && a != c && x != b && window > 0
    requires Tables(Wrapping(x, a, b, c), ts, window, 2)
    ensures |ts| == SEQ_MODULUS + 2
    ensures var n := 0x1_0000_0000_0000_0000;
      Reported(ts[n], b, window, 0) && !Reported(ts[n + 1], b, window, 0) && Reported(ts[n + 1], a, window, 0)
  {
    var es, n := Wrapping(x, a, b, c), SEQ_MODULUS;
    UpToTheLast(x, a, b, c, ts, window);
    EventAt(x, a, b, c, n - 1);
    EventAt(x, a, b, c, n);
    MarkAt(es, ts, window, 2, n - 1);
    FullMark(ts[n - 1], x, a, b, ts[n]);
    MarkAt(es, ts, window, 2, n);
    FullMark(ts[n], b, a, c, ts[n + 1]);
  }
}
