/**
 Duplicate-send suppression: a table of recently sent keys with a time to live, in which a mark made
 at capacity evicts the entry with the lowest insertion number.
 */
module SendDeduper {
  import opened Basics
  import opened DedupKey

  datatype Entry = Entry(at: nat, order: nat)

  datatype Table<K> = Table(entries: map<K, Entry>, last: nat)

  function Purge<K>(entries: map<K, Entry>, window: nat, now: nat): map<K, Entry> {
    map k | k in entries && Age(entries[k].at, now) < window :: entries[k]
  }

  ghost predicate IsOldest<K(!new)>(entries: map<K, Entry>, k: K) {
    k in entries && forall y :: y in entries ==> entries[k].order <= entries[y].order
  }

  lemma {:induction false} OldestExists<K(!new)>(entries: map<K, Entry>)
    requires entries != map[]
    ensures exists k :: IsOldest(entries, k)
    decreases |entries|
  {
    var x :| x in entries;
    var rest := entries - {x};
    if rest == map[] {
      assert forall y :: y in entries && y != x ==> y in rest;
      assert IsOldest(entries, x);
    } else {
      OldestExists(rest);
      var k :| IsOldest(rest, k);
      assert forall y :: y in entries && y != x ==> y in rest;
      assert IsOldest(entries, if entries[x].order <= entries[k].order then x else k);
    }
  }

  ghost function Oldest<K(!new)>(entries: map<K, Entry>): K
    requires entries != map[]
  {
    OldestExists(entries);
    var k :| IsOldest(entries, k);
    k
  }

  ghost function MakeRoom<K(!new)>(entries: map<K, Entry>, capacity: nat): map<K, Entry> {
    if |entries| >= capacity && entries != map[] then entries - {Oldest(entries)} else entries
  }

  ghost function Marked<K(!new)>(t: Table<K>, key: K, capacity: nat, now: nat): Table<K> {
    Table(MakeRoom(t.entries, capacity)[key := Entry(now, t.last + 1)], t.last + 1)
  }

  /** What a check answers. */
  predicate Reported<K>(t: Table<K>, key: K, window: nat, now: nat) {
    key in t.entries && Age(t.entries[key].at, now) < window
  }

  /** No two entries share an insertion number. */
  ghost predicate Unshared<K(!new)>(entries: map<K, Entry>) {
    forall x, y :: x in entries && y in entries && entries[x].order == entries[y].order ==> x == y
  }

  ghost predicate Numbered<K(!new)>(t: Table<K>) {
    Unshared(t.entries) && (forall x :: x in t.entries ==> t.entries[x].order <= t.last)
  }

  lemma MarkedNumbered<K(!new)>(t: Table<K>, key: K, capacity: nat, now: nat)
    requires Numbered(t)
    ensures Numbered(Marked(t, key, capacity, now))
  {
  }

  // The table itself, whose 64-bit insertion counter wraps.

  const SEQ_MODULUS: nat := 0x1_0000_0000_0000_0000

  /** Some entry with the lowest insertion number is gone if the table was full. */
  ghost predicate RoomMade<K(!new)>(entries: map<K, Entry>, capacity: nat, kept: map<K, Entry>) {
    if |entries| >= capacity && entries != map[] then exists k :: IsOldest(entries, k) && kept == entries - {k}
    else kept == entries
  }

  ghost predicate MarkedTo<K(!new)>(t: Table<K>, key: K, capacity: nat, now: nat, t': Table<K>) {
    && t'.last == (t.last + 1) % SEQ_MODULUS
    && exists kept :: RoomMade(t.entries, capacity, kept) && t'.entries == kept[key := Entry(now, t'.last)]
  }

  /** Short of a wrap there is only one way to go. */
  lemma MarkedUnwrapped<K(!new)>(t: Table<K>, key: K, capacity: nat, now: nat, t': Table<K>)
    requires Numbered(t) && t.last + 1 < SEQ_MODULUS && MarkedTo(t, key, capacity, now, t')
    ensures t' == Marked(t, key, capacity, now)
  {
    var kept :| RoomMade(t.entries, capacity, kept) && t'.entries == kept[key := Entry(now, t'.last)];
    if |t.entries| >= capacity && t.entries != map[] {
      var k :| IsOldest(t.entries, k) && kept == t.entries - {k};
      var v := Oldest(t.entries);
      assert IsOldest(t.entries, v);
      assert t.entries[k].order == t.entries[v].order;
    }
  }

  /** The scan for the lowest insertion number. */
  method FindOldest<K(!new, ==)>(entries: map<K, Entry>) returns (k: K)
    requires entries != map[]
    ensures IsOldest(entries, k)
  {
    var left := entries.Keys;
    k :| k in left;
    while left != {}
      invariant left <= entries.Keys && k in entries
      invariant forall y :: y in entries && y !in left ==> entries[k].order <= entries[y].order
      decreases left
    {
      var y :| y in left;
      if entries[y].order < entries[k].order {
        k := y;
      }
      left := left - {y};
    }
  }

  class Deduper {
    const window: nat
    const capacity: nat
    var entries: map<bv64, Entry>
    var last: nat

    ghost function View(): Table<bv64>
      reads this
    {
      Table(entries, last)
    }

    constructor (window: nat, capacity: nat)
      ensures View() == Table(map[], 0) && this.window == window && this.capacity == capacity
    {
      this.window, this.capacity := window, capacity;
      this.entries, this.last := map[], 0;
    }

    method IsDuplicate(m: Mail, now: nat) returns (duplicate: bool)
      modifies this`entries
      ensures entries == Purge(old(entries), window, now)
      ensures duplicate == Reported(old(View()), KeyOf(m), window, now)
    {
      var key := HashKey(m);
      entries := Purge(entries, window, now);
      duplicate := key in entries;
    }

    method Mark(m: Mail, now: nat)
      modifies this`entries, this`last
      ensures MarkedTo(old(View()), KeyOf(m), capacity, now, View())
    {
      var key := HashKey(m);
      last := (last + 1) % SEQ_MODULUS;
      if |entries| >= capacity && entries != map[] {
        var oldest := FindOldest(entries);
        entries := entries - {oldest};
      }
      assert RoomMade(old(entries), capacity, entries);
      entries := entries[key := Entry(now, last)];
    }
  }

  // ── Whole runs against the history of marks ───────────────────────────

  datatype Event<K> = Mark(key: K, at: nat) | Check(key: K, at: nat)

  ghost function After<K(!new)>(es: seq<Event<K>>, n: nat, window: nat, capacity: nat): Table<K>
    requires n <= |es|
  {
    if n == 0 then Table(map[], 0) else Step(After(es, n - 1, window, capacity), es[n - 1], window, capacity)
  }

  ghost function Step<K(!new)>(t: Table<K>, e: Event<K>, window: nat, capacity: nat): Table<K> {
    match e
    case Mark(k, at) => Marked(t, k, capacity, at)
    case Check(_, at) => Table(Purge(t.entries, window, at), t.last)
  }

  predicate Monotone<K>(es: seq<Event<K>>) {
    forall i, j :: 0 <= i <= j < |es| ==> es[i].at <= es[j].at
  }

  /** Index of the latest mark of `k` among the first `n` events, or -1. */
  function Latest<K(==)>(es: seq<Event<K>>, n: nat, k: K): (i: int)
    requires n <= |es|
    ensures -1 <= i < n
  {
    if n == 0 then -1 else if es[n - 1].Mark? && es[n - 1].key == k then n - 1 else Latest(es, n - 1, k)
  }

  lemma {:induction false} LatestIsLatest<K>(es: seq<Event<K>>, n: nat, k: K)
    requires n <= |es|
    ensures var i := Latest(es, n, k);
      && (i >= 0 ==> es[i].Mark? && es[i].key == k)
      && (forall j :: i < j < n && es[j].Mark? ==> es[j].key != k)
  {
    if n == 0 {
    } else {
      LatestIsLatest(es, n - 1, k);
    }
  }

  /** The distinct keys marked from event `a` on and before event `b`. */
  function KeysMarked<K>(es: seq<Event<K>>, a: nat, b: nat): set<K>
    requires b <= |es|
  {
    set j | a <= j < b && es[j].Mark? :: es[j].key
  }

  /** The number of entries the table can hold: a capacity of zero still holds one. */
  function Room(capacity: nat): nat {
    if capacity == 0 then 1 else capacity
  }

  // The reference: a table that never forgets.

  function Remember<K>(u: Table<K>, e: Event<K>): Table<K> {
    if e.Mark? then Table(u.entries[e.key := Entry(e.at, u.last + 1)], u.last + 1) else u
  }

  function History<K>(es: seq<Event<K>>, n: nat): Table<K>
    requires n <= |es|
  {
    if n == 0 then Table(map[], 0) else Remember(History(es, n - 1), es[n - 1])
  }

  /** Later insertion numbers carry later times, and none of them is later than `now`. */
  ghost predicate Timely<K(!new)>(u: Table<K>, now: nat) {
    && Numbered(u)
    && (forall x :: x in u.entries ==> u.entries[x].at <= now)
    && (forall x, y :: x in u.entries && y in u.entries && u.entries[x].order < u.entries[y].order ==>
         u.entries[x].at <= u.entries[y].at)
  }

  /** The keys marked after `k` was. */
  function Newer<K>(u: map<K, Entry>, k: K): set<K>
    requires k in u
  {
    set y | y in u && u[y].order > u[k].order
  }

  /** `e` holds the latest marks of `u` and leaves no gap: whatever is newer than an entry is an entry. */
  ghost predicate Suffix<K(!new)>(e: map<K, Entry>, u: map<K, Entry>) {
    && (forall x :: x in e ==> x in u && u[x] == e[x])
    && (forall x :: x in e ==> Newer(u, x) <= e.Keys)
  }

  lemma SmallerMap<K, V>(a: map<K, V>, b: map<K, V>)
    requires a.Keys <= b.Keys
    ensures |a| <= |b|
  {
    SubsetSize(a.Keys, b.Keys);
  }

  lemma {:induction false} HistoryTimely<K(!new)>(es: seq<Event<K>>, n: nat, now: nat)
    requires n <= |es| && Monotone(es) && forall j :: 0 <= j < n ==> es[j].at <= now
    ensures Timely(History(es, n), now)
  {
    if n == 0 {
    } else {
      HistoryTimely(es, n - 1, es[n - 1].at);
    }
  }

  lemma PurgeSuffix<K(!new)>(e: map<K, Entry>, u: Table<K>, window: nat, now: nat)
    requires Suffix(e, u.entries) && Timely(u, now)
    ensures Suffix(Purge(e, window, now), u.entries) && |Purge(e, window, now)| <= |e|
  {
    var p := Purge(e, window, now);
    SmallerMap(p, e);
    forall x | x in p ensures Newer(u.entries, x) <= p.Keys {
      assert Newer(u.entries, x) <= e.Keys;
    }
  }

  /** Making room removes the earliest mark, so it leaves no gap. */
  lemma MakeRoomSuffix<K(!new)>(e: map<K, Entry>, u: Table<K>, capacity: nat)
    requires Suffix(e, u.entries) && Numbered(u) && |e| <= Room(capacity)
    ensures Suffix(MakeRoom(e, capacity), u.entries) && |MakeRoom(e, capacity)| < Room(capacity)
  {
  }

  lemma InsertSuffix<K(!new)>(e: map<K, Entry>, u: Table<K>, k: K, at: nat)
    requires Suffix(e, u.entries) && Numbered(u)
    ensures Suffix(e[k := Entry(at, u.last + 1)], u.entries[k := Entry(at, u.last + 1)])
  {
  }

  lemma InsertSize<K, V>(m: map<K, V>, k: K, v: V)
    ensures |m[k := v]| <= |m| + 1
  {
  }

  ghost predicate Bounded<K(!new)>(t: Table<K>, u: Table<K>, capacity: nat) {
    |t.entries| <= Room(capacity) && t.last == u.last && Suffix(t.entries, u.entries)
  }

  lemma InsertBounded<K(!new)>(e: map<K, Entry>, u: Table<K>, k: K, at: nat, capacity: nat)
    requires Suffix(e, u.entries) && Numbered(u) && |e| < Room(capacity)
    ensures Bounded(Table(e[k := Entry(at, u.last + 1)], u.last + 1), Remember(u, Mark(k, at)), capacity)
  {
    InsertSuffix(e, u, k, at);
    InsertSize(e, k, Entry(at, u.last + 1));
  }

  lemma MarkBounded<K(!new)>(t: Table<K>, u: Table<K>, k: K, at: nat, capacity: nat)
    requires Bounded(t, u, capacity) && Numbered(u)
    ensures Bounded(Marked(t, k, capacity, at), Remember(u, Mark(k, at)), capacity)
  {
    MakeRoomSuffix(t.entries, u, capacity);
    InsertBounded(MakeRoom(t.entries, capacity), u, k, at, capacity);
  }

  lemma StepBounded<K(!new)>(t: Table<K>, u: Table<K>, e: Event<K>, window: nat, capacity: nat)
    requires Bounded(t, u, capacity) && Timely(u, e.at)
    ensures Bounded(Step(t, e, window, capacity), Remember(u, e), capacity)
  {
    if e.Mark? {
      MarkBounded(t, u, e.key, e.at, capacity);
    } else {
      PurgeSuffix(t.entries, u, window, e.at);
    }
  }

  /** The table never outgrows its capacity and is always a gapless suffix of the whole history. */
  lemma {:induction false} RunBounded<K(!new)>(es: seq<Event<K>>, n: nat, window: nat, capacity: nat)
    requires n <= |es| && Monotone(es)
    ensures Bounded(After(es, n, window, capacity), History(es, n), capacity)
    ensures |After(es, n, window, capacity).entries| <= Room(capacity)
  {
    if n == 0 {
    } else {
      var t, u, e := After(es, n - 1, window, capacity), History(es, n - 1), es[n - 1];
      assert Bounded(t, u, capacity) by {
        RunBounded(es, n - 1, window, capacity);
      }
      assert Timely(u, e.at) by {
        HistoryTimely(es, n - 1, e.at);
      }
      StepBounded(t, u, e, window, capacity);
    }
  }

  /** Making room removes `k` exactly when the keys marked since fill the rest of the table. */
  lemma EvictsIff<K(!new)>(e: map<K, Entry>, u: Table<K>, capacity: nat, k: K)
    requires Suffix(e, u.entries) && Numbered(u) && |e| <= Room(capacity) && k in e
    ensures k in MakeRoom(e, capacity) <==> |Newer(u.entries, k)| + 1 < Room(capacity)
  {
    var own := Newer(u.entries, k) + {k};
    assert |own| == |Newer(u.entries, k)| + 1;
    SubsetSize(own, e.Keys);
    assert |e| == |e.Keys|;
    var v := Oldest(e);
    assert IsOldest(e, v);
    if k == v {
      assert forall y :: y in e && y != k ==> u.entries[y].order != u.entries[k].order;
      assert own == e.Keys;
    } else {
      assert v !in own;
    }
  }

  // The same in terms of the events.

  /** The newer keys of the history are the distinct keys marked since the latest mark. */
  lemma {:induction false} HistoryIs<K(!new)>(es: seq<Event<K>>, n: nat, k: K)
    requires n <= |es|
    ensures var i, u := Latest(es, n, k), History(es, n).entries;
      && (k in u <==> i >= 0)
      && (i >= 0 ==> u[k].at == es[i].at && Newer(u, k) == KeysMarked(es, i + 1, n))
  {
    if n == 0 {
    } else {
      HistoryIs(es, n - 1, k);
      HistoryNumbered(es, n - 1);
      if es[n - 1].Mark? && es[n - 1].key == k {
        assert KeysMarked(es, n, n) == {};
      } else if Latest(es, n, k) >= 0 {
        KeysMarkedStep(es, Latest(es, n, k) + 1, n - 1);
      }
    }
  }

  lemma KeysMarkedStep<K>(es: seq<Event<K>>, a: nat, b: nat)
    requires a <= b < |es|
    ensures KeysMarked(es, a, b + 1) == KeysMarked(es, a, b) + if es[b].Mark? then {es[b].key} else {}
  {
  }

  lemma {:induction false} HistoryNumbered<K(!new)>(es: seq<Event<K>>, n: nat)
    requires n <= |es|
    ensures Numbered(History(es, n))
  {
    if n == 0 {
    } else {
      HistoryNumbered(es, n - 1);
    }
  }

  /** Has the mark of `k` at event `i` survived every later mark? */
  ghost predicate Survives<K(!new)>(es: seq<Event<K>>, i: nat, n: nat, capacity: nat)
    requires i < n <= |es|
  {
    forall j :: i < j < n && es[j].Mark? ==> |KeysMarked(es, i + 1, j)| + 1 < Room(capacity)
  }

  /** Has it outlived every purge? */
  ghost predicate Unpurged<K(!new)>(es: seq<Event<K>>, i: nat, n: nat, window: nat)
    requires i < n <= |es|
  {
    forall j :: i < j < n && es[j].Check? ==> Age(es[i].at, es[j].at) < window
  }

  /** Whether the latest mark of `k` is still in the table, in terms of the history alone. */
  ghost predicate Kept<K(!new)>(es: seq<Event<K>>, n: nat, window: nat, capacity: nat, k: K)
    requires n <= |es|
  {
    KeptFrom(es, Latest(es, n, k), n, window, capacity)
  }

  ghost predicate KeptFrom<K(!new)>(es: seq<Event<K>>, i: int, n: nat, window: nat, capacity: nat)
    requires i < n <= |es|
  {
    i >= 0 && Survives(es, i, n, capacity) && Unpurged(es, i, n, window)
  }

  predicate Spared<K(==)>(es: seq<Event<K>>, n: nat, capacity: nat, k: K)
    requires n <= |es|
  {
    |KeysMarked(es, Latest(es, n, k) + 1, n)| + 1 < Room(capacity)
  }

  predicate Young<K(==)>(es: seq<Event<K>>, n: nat, window: nat, k: K, at: nat)
    requires n <= |es|
  {
    Latest(es, n, k) >= 0 && Age(es[Latest(es, n, k)].at, at) < window
  }

  lemma SurvivesStep<K(!new)>(es: seq<Event<K>>, i: nat, m: nat, n: nat, capacity: nat)
    requires i < m < n == m + 1 <= |es|
    ensures Survives(es, i, n, capacity) <==>
      Survives(es, i, m, capacity) && (es[m].Mark? ==> |KeysMarked(es, i + 1, m)| + 1 < Room(capacity))
  {
  }

  lemma UnpurgedStep<K(!new)>(es: seq<Event<K>>, i: nat, m: nat, n: nat, window: nat)
    requires i < m < n == m + 1 <= |es|
    ensures Unpurged(es, i, n, window) <==>
      Unpurged(es, i, m, window) && (es[m].Check? ==> Age(es[i].at, es[m].at) < window)
  {
  }

  lemma KeptFromStep<K(!new)>(es: seq<Event<K>>, i: int, m: nat, n: nat, window: nat, capacity: nat)
    requires i < m < n == m + 1 <= |es|
    ensures KeptFrom(es, i, n, window, capacity) <==>
      && KeptFrom(es, i, m, window, capacity)
      && (es[m].Mark? ==> |KeysMarked(es, i + 1, m)| + 1 < Room(capacity))
      && (es[m].Check? ==> Age(es[i].at, es[m].at) < window)
  {
    if i >= 0 {
      SurvivesStep(es, i, m, n, capacity);
      UnpurgedStep(es, i, m, n, window);
    }
  }

  /** What an event does to a kept mark. */
  lemma KeptStep<K(!new)>(es: seq<Event<K>>, m: nat, n: nat, window: nat, capacity: nat, k: K)
    requires n == m + 1 <= |es|
    ensures Kept(es, n, window, capacity, k) <==>
      if es[m].Mark? then es[m].key == k || (Kept(es, m, window, capacity, k) && Spared(es, m, capacity, k))
      else Kept(es, m, window, capacity, k) && Young(es, m, window, k, es[m].at)
  {
    if es[m].Mark? && es[m].key == k {
      assert Latest(es, n, k) == m;
      assert KeptFrom(es, m, n, window, capacity);
    } else {
      assert Latest(es, n, k) == Latest(es, m, k);
      KeptFromStep(es, Latest(es, m, k), m, n, window, capacity);
    }
  }

  /** What it does to an entry, in terms of the history. */
  lemma EntryMarked<K(!new)>(es: seq<Event<K>>, n: nat, t: Table<K>, capacity: nat, x: K, at: nat, k: K)
    requires n <= |es| && Bounded(t, History(es, n), capacity)
    ensures k in Marked(t, x, capacity, at).entries <==> x == k || (k in t.entries && Spared(es, n, capacity, k))
  {
    if k in t.entries {
      HistoryIs(es, n, k);
      assert k in MakeRoom(t.entries, capacity) <==> |Newer(History(es, n).entries, k)| + 1 < Room(capacity) by {
        HistoryNumbered(es, n);
        EvictsIff(t.entries, History(es, n), capacity, k);
      }
    }
  }

  lemma EntryPurged<K(!new)>(es: seq<Event<K>>, n: nat, t: Table<K>, window: nat, capacity: nat, at: nat, k: K)
    requires n <= |es| && Bounded(t, History(es, n), capacity)
    ensures k in Purge(t.entries, window, at) <==> k in t.entries && Young(es, n, window, k, at)
  {
    HistoryIs(es, n, k);
  }

  /** The table holds `k` exactly when the history says so. */
  ghost predicate Right<K(!new)>(es: seq<Event<K>>, n: nat, window: nat, capacity: nat, k: K)
    requires n <= |es|
  {
    k in After(es, n, window, capacity).entries <==> Kept(es, n, window, capacity, k)
  }

  lemma EntryNext<K(!new)>(es: seq<Event<K>>, m: nat, n: nat, window: nat, capacity: nat, k: K)
    requires n == m + 1 <= |es| && Monotone(es) && Right(es, m, window, capacity, k)
    ensures Right(es, n, window, capacity, k)
  {
    var t := After(es, m, window, capacity);
    assert After(es, n, window, capacity) == Step(t, es[m], window, capacity);
    assert Bounded(t, History(es, m), capacity) by {
      RunBounded(es, m, window, capacity);
    }
    if es[m].Mark? {
      EntryMarked(es, m, t, capacity, es[m].key, es[m].at, k);
    } else {
      EntryPurged(es, m, t, window, capacity, es[m].at, k);
    }
    KeptStep(es, m, n, window, capacity, k);
  }

  lemma {:induction false} EntryIff<K(!new)>(es: seq<Event<K>>, n: nat, window: nat, capacity: nat, k: K)
    requires n <= |es| && Monotone(es)
    ensures Right(es, n, window, capacity, k)
  {
    if n == 0 {
    } else {
      EntryIff(es, n - 1, window, capacity, k);
      EntryNext(es, n - 1, n, window, capacity, k);
    }
  }

  /** A check reports `k` exactly when its latest mark is younger than the window and has not been crowded out. */
  lemma ReportedIff<K(!new)>(es: seq<Event<K>>, n: nat, window: nat, capacity: nat, k: K, now: nat)
    requires n <= |es| && Monotone(es) && (forall j :: 0 <= j < n ==> es[j].at <= now)
    ensures var i := Latest(es, n, k);
      Reported(After(es, n, window, capacity), k, window, now) <==>
      i >= 0 && now - es[i].at < window && Survives(es, i, n, capacity)
  {
    EntryIff(es, n, window, capacity, k);
    assert Bounded(After(es, n, window, capacity), History(es, n), capacity) by {
      RunBounded(es, n, window, capacity);
    }
    HistoryIs(es, n, k);
  }

  function CountMarks<K>(es: seq<Event<K>>, a: nat, b: nat): nat
    requires a <= b <= |es|
  {
    if a == b then 0 else CountMarks(es, a, b - 1) + if es[b - 1].Mark? then 1 else 0
  }

  lemma {:induction false} FewerKeysThanMarks<K>(es: seq<Event<K>>, a: nat, b: nat)
    requires a <= b <= |es|
    ensures |KeysMarked(es, a, b)| <= CountMarks(es, a, b)
  {
    if a == b {
      assert KeysMarked(es, a, b) == {};
    } else {
      FewerKeysThanMarks(es, a, b - 1);
      assert KeysMarked(es, a, b) == KeysMarked(es, a, b - 1) + if es[b - 1].Mark? then {es[b - 1].key} else {};
    }
  }

  lemma {:induction false} CountMarksGrow<K>(es: seq<Event<K>>, a: nat, b: nat, c: nat)
    requires a <= b < c <= |es| && es[b].Mark?
    ensures CountMarks(es, a, b) < CountMarks(es, a, c)
  {
    if b == c - 1 {
    } else {
      CountMarksGrow(es, a, b, c - 1);
    }
  }

  lemma FewMarksSurvive<K(!new)>(es: seq<Event<K>>, i: nat, n: nat, capacity: nat)
    requires i < n <= |es| && CountMarks(es, i + 1, n) < Room(capacity)
    ensures Survives(es, i, n, capacity)
  {
    forall j | i < j < n && es[j].Mark? ensures |KeysMarked(es, i + 1, j)| + 1 < Room(capacity) {
      FewerKeysThanMarks(es, i + 1, j);
      CountMarksGrow(es, i + 1, j, n);
    }
  }

  /** A key marked within the window is reported while fewer marks than the capacity have followed it. */
  lemma RecentMarkReported<K(!new)>(es: seq<Event<K>>, n: nat, window: nat, capacity: nat, k: K, now: nat)
    requires n <= |es| && Monotone(es) && (forall j :: 0 <= j < n ==> es[j].at <= now)
    requires Latest(es, n, k) >= 0 && now - es[Latest(es, n, k)].at < window
    requires CountMarks(es, Latest(es, n, k) + 1, n) < Room(capacity)
    ensures Reported(After(es, n, window, capacity), k, window, now)
  {
    FewMarksSurvive(es, Latest(es, n, k), n, capacity);
    ReportedIff(es, n, window, capacity, k, now);
  }

  /** A repeated mark evicts too: with room for two keys, marking `b` twice crowds out `a`. */
  lemma RepeatedMarkEvicts<K(!new)>(a: K, b: K, window: nat)
    requires a != b && window > 0
    ensures var es := [Mark(a, 0), Mark(b, 0), Mark(b, 0)];
      && Reported(After(es, 2, window, 2), a, window, 0)
      && !Reported(After(es, 3, window, 2), a, window, 0)
  {
    var es := [Mark(a, 0), Mark(b, 0), Mark(b, 0)];
    assert Latest(es, 3, a) == 0 && Latest(es, 2, a) == 0;
    assert KeysMarked(es, 1, 1) == {};
    assert b in KeysMarked(es, 1, 2) by {
      assert es[1].Mark? && es[1].key == b;
    }
    SubsetSize({b}, KeysMarked(es, 1, 2));
    ReportedIff(es, 2, window, 2, a, 0);
    ReportedIff(es, 3, window, 2, a, 0);
    assert !Survives(es, 0, 3, 2) by {
      assert es[2].Mark?;
    }
  }
}
