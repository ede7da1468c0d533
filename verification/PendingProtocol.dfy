/**
 Writers and waiters around the wake-up registry, interleaved in any way.

 A writer commits a row and only afterwards bumps the keys the row is visible under.  A waiter
 takes a snapshot, queries, and, if it saw nothing, waits and (when woken) queries once more.
 Rows may be removed at any instant (acknowledged or expired).  Signals are not modelled as
 reliable: `Signal` may happen for no reason, or never.
 */
module PendingProtocol {
  import opened PendingNotifier

  type RowId = nat
  type WaiterId = nat

  datatype Row = Row(systemId: string, email: string)

  predicate Matches(row: Row, k: NotifyKey) {
    match k
    case System(s) => row.systemId == s
    case Email(s, e) => row.systemId == s && row.email == e
  }

  datatype Phase =
    | Snapped(since: nat)
    | Waiting(since: nat)                   // queried, saw nothing, has yet to enter the wait
    | Checking(since: nat, deadline: int)   // about to compare the counter
    | Suspended(since: nat, deadline: int)
    | Woken(since: nat)                     // told to query again
    | Answered(rows: set<RowId>)            // the first query found something
    | WokeWith(rows: set<RowId>)
    | TimedOut

  datatype Waiter = Waiter(key: NotifyKey, phase: Phase)

  datatype State = State(
    gens: Gens, store: map<RowId, Row>, everCommitted: set<RowId>, waiters: map<WaiterId, Waiter>)

  datatype Event =
    | Commit(row: RowId, content: Row)
    | Bump(row: RowId, content: Row, key: NotifyKey)
    | Remove(row: RowId)
    | Snapshot(w: WaiterId, key: NotifyKey)
    | Query(w: WaiterId)
    | EnterWait(w: WaiterId, start: int, hold: nat)
    | Check(w: WaiterId)
    | Signal(w: WaiterId)
    | Deadline(w: WaiterId, now: int)
    | Requery(w: WaiterId)

  function Visible(store: map<RowId, Row>, k: NotifyKey): set<RowId> {
    set r | r in store && Matches(store[r], k)
  }

  /** May event `i` of a run happen in state `s`?  A bump needs an earlier commit of its row. */
  ghost predicate Enabled(s: State, es: seq<Event>, i: nat)
    requires i < |es|
  {
    match es[i]
    case Commit(r, _) => r !in s.everCommitted
    case Bump(r, content, k) => Matches(content, k) && exists c :: 0 <= c < i && es[c] == Commit(r, content)
    case Remove(r) => r in s.store
    case Snapshot(w, k) => w !in s.waiters
    case Query(w) => w in s.waiters && s.waiters[w].phase.Snapped?
    case EnterWait(w, _, _) => w in s.waiters && s.waiters[w].phase.Waiting?
    case Check(w) => w in s.waiters && s.waiters[w].phase.Checking?
    case Signal(w) => w in s.waiters && s.waiters[w].phase.Suspended?
    case Deadline(w, now) => w in s.waiters && s.waiters[w].phase.Suspended? && s.waiters[w].phase.deadline <= now
    case Requery(w) => w in s.waiters && s.waiters[w].phase.Woken?
  }

  /** The phase a waiter's own step leads to. */
  function PhaseAfter(s: State, x: Waiter, e: Event): Phase {
    var p, rows, gen := x.phase, Visible(s.store, x.key), GenOf(s.gens, x.key);
    match e
    case Query(_) => if !p.Snapped? then p else if rows == {} then Waiting(p.since) else Answered(rows)
    case EnterWait(_, start, hold) => if !p.Waiting? then p else Checking(p.since, start + hold)
    case Check(_) =>
      if !p.Checking? then p else if gen > p.since then Woken(p.since) else Suspended(p.since, p.deadline)
    case Signal(_) => if !p.Suspended? then p else Checking(p.since, p.deadline)
    case Deadline(_, _) => if !p.Suspended? then p else if gen > p.since then Woken(p.since) else TimedOut
    case Requery(_) => if !p.Woken? then p else WokeWith(rows)
    case _ => p
  }

  function Apply(s: State, e: Event): State {
    match e
    case Commit(r, content) => s.(store := s.store[r := content], everCommitted := s.everCommitted + {r})
    case Bump(_, _, k) => s.(gens := s.gens[k := Wrap(GenOf(s.gens, k), 1)])
    case Remove(r) => s.(store := s.store - {r})
    case Snapshot(w, k) => s.(waiters := s.waiters[w := Waiter(k, Snapped(GenOf(s.gens, k)))])
    case _ =>
      if e.w !in s.waiters then s
      else s.(waiters := s.waiters[e.w := s.waiters[e.w].(phase := PhaseAfter(s, s.waiters[e.w], e))])
  }

  function After(es: seq<Event>, n: nat): State
    requires n <= |es|
  {
    if n == 0 then State(map[], map[], {}, map[]) else Apply(After(es, n - 1), es[n - 1])
  }

  ghost predicate Run(es: seq<Event>) {
    forall i :: 0 <= i < |es| ==> Enabled(After(es, i), es, i)
  }

  /** How many of the first `n` events bump `k`. */
  function Bumps(es: seq<Event>, n: nat, k: NotifyKey): nat
    requires n <= |es|
  {
    if n == 0 then 0 else Bumps(es, n - 1, k) + (if es[n - 1].Bump? && es[n - 1].key == k then 1 else 0)
  }

  lemma {:induction false} GenCountsBumps(es: seq<Event>, n: nat, k: NotifyKey)
    requires n <= |es|
    ensures GenOf(After(es, n).gens, k) == Wrap(0, Bumps(es, n, k))
  {
    if n == 0 {
    } else {
      GenCountsBumps(es, n - 1, k);
      WrapAdd(0, Bumps(es, n - 1, k), 1);
    }
  }

  lemma {:induction false} BumpsGrow(es: seq<Event>, m: nat, n: nat, k: NotifyKey)
    requires m <= n <= |es|
    ensures Bumps(es, m, k) <= Bumps(es, n, k)
    ensures forall b :: m <= b < n && es[b].Bump? && es[b].key == k ==> Bumps(es, m, k) < Bumps(es, n, k)
  {
    if m == n {
    } else {
      BumpsGrow(es, m, n - 1, k);
    }
  }

  /** The counter of `k` does not wrap between the two instants. */
  predicate NoWrap(es: seq<Event>, m: nat, n: nat, k: NotifyKey)
    requires m <= n <= |es|
  {
    Bumps(es, m, k) % GEN_MODULUS + (Bumps(es, n, k) - Bumps(es, m, k)) < GEN_MODULUS
  }

  /** Without a wrap, the counter exceeds the snapshot exactly when some bump happened in between. */
  lemma CounterSeesBumps(es: seq<Event>, m: nat, n: nat, k: NotifyKey)
    requires m <= n <= |es| && NoWrap(es, m, n, k)
    ensures GenOf(After(es, n).gens, k) > GenOf(After(es, m).gens, k) <==> Bumps(es, m, k) < Bumps(es, n, k)
  {
    GenCountsBumps(es, m, k);
    GenCountsBumps(es, n, k);
    BumpsGrow(es, m, n, k);
    var b, d := Bumps(es, m, k), Bumps(es, n, k) - Bumps(es, m, k);
    if d > 0 {
      ComparisonSeesBumpsIff(b, d);
    }
  }

  /** The phases that carry a snapshot, and those that follow an empty first query. */
  predicate Carrying(p: Phase) {
    p.Snapped? || p.Waiting? || p.Checking? || p.Suspended? || p.Woken?
  }

  predicate PastQuery(p: Phase) {
    p.Waiting? || p.Checking? || p.Suspended? || p.Woken? || p.WokeWith? || p.TimedOut?
  }

  lemma {:induction false} WaiterKeepsSnapshot(es: seq<Event>, s: nat, n: nat)
    requires Run(es) && s < n <= |es| && es[s].Snapshot?
    ensures es[s].w in After(es, n).waiters && After(es, n).waiters[es[s].w].key == es[s].key
    ensures var p := After(es, n).waiters[es[s].w].phase; Carrying(p) ==> p.since == GenOf(After(es, s).gens, es[s].key)
  {
    assert Enabled(After(es, n - 1), es, n - 1);
    if n == s + 1 {
    } else {
      WaiterKeepsSnapshot(es, s, n - 1);
    }
  }

  lemma {:induction false} SnappedNotQueried(es: seq<Event>, s: nat, n: nat)
    requires Run(es) && s < n <= |es| && es[s].Snapshot?
    requires es[s].w in After(es, n).waiters && After(es, n).waiters[es[s].w].phase.Snapped?
    ensures forall q :: s < q < n ==> es[q] != Query(es[s].w)
  {
    assert Enabled(After(es, n - 1), es, n - 1);
    if n == s + 1 {
    } else {
      WaiterKeepsSnapshot(es, s, n - 1);
      SnappedNotQueried(es, s, n - 1);
    }
  }

  /** Only an empty query leads past the query. */
  lemma PastQueryStep(s: State, e: Event, w: WaiterId)
    requires w in s.waiters && !(e.Snapshot? && e.w == w) && PastQuery(Apply(s, e).waiters[w].phase)
    ensures PastQuery(s.waiters[w].phase)
      || (s.waiters[w].phase.Snapped? && e == Query(w) && Visible(s.store, s.waiters[w].key) == {})
  {
  }

  lemma {:induction false} QueriedEmpty(es: seq<Event>, s: nat, n: nat, q: nat)
    requires Run(es) && s < q < n <= |es| && es[s].Snapshot? && es[q] == Query(es[s].w)
    requires es[s].w in After(es, n).waiters && PastQuery(After(es, n).waiters[es[s].w].phase)
    ensures Visible(After(es, q).store, es[s].key) == {}
  {
    assert Enabled(After(es, n - 1), es, n - 1);
    WaiterKeepsSnapshot(es, s, n - 1);
    PastQueryStep(After(es, n - 1), es[n - 1], es[s].w);
    if PastQuery(After(es, n - 1).waiters[es[s].w].phase) {
      QueriedEmpty(es, s, n - 1, q);
    } else if q < n - 1 {
      SnappedNotQueried(es, s, n - 1);
    }
  }

  /** A waiter keeps its key and its snapshot; past the first query, that query had found nothing. */
  lemma WaiterRemembers(es: seq<Event>, s: nat, n: nat)
    requires Run(es) && s < n <= |es| && es[s].Snapshot?
    ensures es[s].w in After(es, n).waiters
    ensures var x := After(es, n).waiters[es[s].w];
      && x.key == es[s].key
      && (Carrying(x.phase) ==> x.phase.since == GenOf(After(es, s).gens, es[s].key))
      && (PastQuery(x.phase) ==>
            forall q :: s < q < n && es[q] == Query(es[s].w) ==> Visible(After(es, q).store, es[s].key) == {})
  {
    WaiterKeepsSnapshot(es, s, n);
    forall q | s < q < n && es[q] == Query(es[s].w) && PastQuery(After(es, n).waiters[es[s].w].phase)
      ensures Visible(After(es, q).store, es[s].key) == {}
    {
      QueriedEmpty(es, s, n, q);
    }
  }

  /** A committed row is in the store until it is removed, and never comes back. */
  lemma {:induction false} RowHistory(es: seq<Event>, c: nat, n: nat)
    requires Run(es) && c < n <= |es| && es[c].Commit?
    ensures es[c].row in After(es, n).everCommitted
    ensures es[c].row in After(es, n).store ==>
      After(es, n).store[es[c].row] == es[c].content && forall d :: c < d < n ==> es[d] != Remove(es[c].row)
    ensures es[c].row !in After(es, n).store ==> exists d :: c < d < n && es[d] == Remove(es[c].row)
  {
    assert Enabled(After(es, n - 1), es, n - 1);
    if n > c + 1 {
      RowHistory(es, c, n - 1);
      if es[n - 1] == Remove(es[c].row) {
        assert es[c].row !in After(es, n).store;
      }
    }
  }

  /** Snapshot `s`, query `q` and final look `t` of one waiter that then gave up. */
  ghost predicate GaveUp(es: seq<Event>, s: nat, q: nat, t: nat) {
    && Run(es) && s < q < t < |es|
    && es[s].Snapshot? && es[q] == Query(es[s].w) && es[t].Deadline? && es[t].w == es[s].w
    && es[s].w in After(es, t + 1).waiters && After(es, t + 1).waiters[es[s].w].phase.TimedOut?
  }

  /** A waiter that gives up saw no bump on its key since its snapshot. */
  lemma NoBumpSinceSnapshot(es: seq<Event>, s: nat, q: nat, t: nat)
    requires GaveUp(es, s, q, t)
    requires NoWrap(es, s, t, es[s].key)
    ensures forall b :: s <= b < t && es[b].Bump? ==> es[b].key != es[s].key
  {
    assert Enabled(After(es, t), es, t);
    WaiterRemembers(es, s, t);
    CounterSeesBumps(es, s, t, es[s].key);
    BumpsGrow(es, s, t, es[s].key);
  }

  /** Exactly: what it compared at its final look told it so just when the counter had not wrapped. */
  lemma NoBumpSinceSnapshotIff(es: seq<Event>, s: nat, q: nat, t: nat)
    requires GaveUp(es, s, q, t)
    ensures (forall b :: s <= b < t && es[b].Bump? ==> es[b].key != es[s].key) <==> NoWrap(es, s, t, es[s].key)
  {
    var k := es[s].key;
    if NoWrap(es, s, t, k) {
      NoBumpSinceSnapshot(es, s, q, t);
    } else {
      BumpsGrow(es, s, t, k);
      var b := SomeBump(es, s, t, k);
    }
  }

  /**
   Nothing is missed: when a waiter gives up after an empty query, every row whose bump on its key
   came before the final look had already been removed when the waiter queried.
   */
  lemma TimeoutMissedNothing(es: seq<Event>, s: nat, q: nat, t: nat, b: nat)
    requires GaveUp(es, s, q, t) && NoWrap(es, s, t, es[s].key)
    requires b < t && es[b].Bump? && es[b].key == es[s].key
    ensures exists d :: 0 <= d < q && es[d] == Remove(es[b].row)
  {
    NoBumpSinceSnapshot(es, s, q, t);
    assert Enabled(After(es, b), es, b);
    var c :| 0 <= c < b && es[c] == Commit(es[b].row, es[b].content);
    RowHistory(es, c, q);
    WaiterRemembers(es, s, t + 1);
    assert es[b].row !in Visible(After(es, q).store, es[s].key);
  }

  /** A row still stored when a waiter on its key gives up has its bump yet to come: the next wait sees it. */
  lemma NoStrandedRow(es: seq<Event>, s: nat, q: nat, t: nat, r: RowId)
    requires GaveUp(es, s, q, t) && NoWrap(es, s, t, es[s].key)
    requires r in Visible(After(es, t).store, es[s].key)
    ensures forall b :: 0 <= b < t && es[b].Bump? && es[b].row == r ==> es[b].key != es[s].key
  {
    forall b | 0 <= b < t && es[b].Bump? && es[b].row == r && es[b].key == es[s].key ensures false {
      TimeoutMissedNothing(es, s, q, t, b);
      var d :| 0 <= d < q && es[d] == Remove(r);
      assert Enabled(After(es, d), es, d);
      var c := CommitOf(es, d, r);
      RowHistory(es, c, t);
    }
  }

  /** The commit behind a stored row. */
  lemma {:induction false} CommitOf(es: seq<Event>, n: nat, r: RowId) returns (c: nat)
    requires Run(es) && n <= |es| && r in After(es, n).store
    ensures c < n && es[c].Commit? && es[c].row == r
  {
    assert Enabled(After(es, n - 1), es, n - 1);
    if es[n - 1].Commit? && es[n - 1].row == r {
      c := n - 1;
    } else {
      c := CommitOf(es, n - 1, r);
    }
  }

  /**
   A woken waiter was woken by a bump, and its second query returns the row behind every bump since
   the snapshot that has not been removed meanwhile.
   */
  lemma WokeSeesBumpedRows(es: seq<Event>, s: nat, q: nat, t: nat)
    requires Run(es) && s < q < t < |es|
    requires es[s].Snapshot? && es[q] == Query(es[s].w) && es[t] == Requery(es[s].w)
    ensures es[s].w in After(es, t + 1).waiters && After(es, t + 1).waiters[es[s].w].phase.WokeWith?
    ensures exists b :: s <= b < t && es[b].Bump? && es[b].key == es[s].key
    ensures forall b :: s <= b < t && es[b].Bump? && es[b].key == es[s].key ==>
      || es[b].row in After(es, t + 1).waiters[es[s].w].phase.rows
      || exists d :: 0 <= d < t && es[d] == Remove(es[b].row)
  {
    assert Enabled(After(es, t), es, t);
    WaiterRemembers(es, s, t);
    var k := es[s].key;
    var m := WokenBecauseOfBump(es, s, t);
    GenCountsBumps(es, s, k);
    GenCountsBumps(es, m, k);
    BumpsGrow(es, s, m, k);
    var b := SomeBump(es, s, m, k);
    forall b | s <= b < t && es[b].Bump? && es[b].key == k
      ensures || es[b].row in After(es, t + 1).waiters[es[s].w].phase.rows
              || exists d :: 0 <= d < t && es[d] == Remove(es[b].row)
    {
      assert Enabled(After(es, b), es, b);
      var c :| 0 <= c < b && es[c] == Commit(es[b].row, es[b].content);
      RowHistory(es, c, t);
    }
  }

  /** A waiter told to query again compared unequal counters at some instant. */
  lemma {:induction false} WokenBecauseOfBump(es: seq<Event>, s: nat, n: nat) returns (m: nat)
    requires Run(es) && s < n <= |es| && es[s].Snapshot?
    requires es[s].w in After(es, n).waiters && After(es, n).waiters[es[s].w].phase.Woken?
    ensures s <= m < n && GenOf(After(es, m).gens, es[s].key) > GenOf(After(es, s).gens, es[s].key)
  {
    assert Enabled(After(es, n - 1), es, n - 1);
    assert n > s + 1;
    WaiterRemembers(es, s, n - 1);
    if After(es, n - 1).waiters[es[s].w].phase.Woken? {
      m := WokenBecauseOfBump(es, s, n - 1);
    } else {
      m := n - 1;
    }
  }

  lemma {:induction false} SomeBump(es: seq<Event>, m: nat, n: nat, k: NotifyKey) returns (b: nat)
    requires m <= n <= |es| && Bumps(es, m, k) != Bumps(es, n, k)
    ensures m <= b < n && es[b].Bump? && es[b].key == k
  {
    if es[n - 1].Bump? && es[n - 1].key == k {
      b := n - 1;
    } else {
      b := SomeBump(es, m, n - 1, k);
    }
  }
}
