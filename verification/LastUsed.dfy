/**
 Batched `last_used_at`: requests note the keys they used, a flusher drains the notes and writes them in
 one transaction, and a failed write puts them back.
 */
module LastUsed {
  import opened Options

  /** Key id to its stored `last_used_at`, for the keys that exist. */
  type Stored = map<int, Option<nat>>

  function Write(stored: Stored, ids: set<int>, now: nat): Stored {
    map k | k in stored :: if k in ids then Some(now) else stored[k]
  }

  method Pick<T>(s: set<T>) returns (x: T)
    requires s != {}
    ensures x in s
  {
    x :| x in s;
  }

  class Tracker {
    var pending: set<int>

    constructor ()
      ensures pending == {}
    {
      pending := {};
    }

    method Note(id: int)
      modifies this
      ensures pending == old(pending) + {id}
    {
      pending := pending + {id};
    }

    method Drain() returns (ids: set<int>)
      modifies this
      ensures ids == old(pending) && pending == {}
    {
      ids := pending;
      pending := {};
    }
  }

  class Database {
    var stored: Stored

    constructor (stored: Stored)
      ensures this.stored == stored
    {
      this.stored := stored;
    }

    /** One update per key in one transaction, which either commits or leaves the table alone. */
    method Flush(ids: set<int>, now: nat, commits: bool) returns (written: Option<nat>)
      modifies this
      ensures written == if ids == {} then Some(0) else if commits then Some(|ids|) else None
      ensures stored == if commits then Write(old(stored), ids, now) else old(stored)
    {
      if ids == {} {
        assert Write(stored, ids, now) == stored;
        return Some(0);
      }
      var table, left := stored, ids;
      while left != {}
        invariant left <= ids
        invariant stored == old(stored) && table == Write(stored, ids - left, now)
        decreases left
      {
        var id := Pick(left);
        if id in table {
          table := table[id := Some(now)];
        }
        left := left - {id};
      }
      assert ids - left == ids;
      if !commits {
        return None;
      }
      stored := table;
      return Some(|ids|);
    }
  }

  // ── Interleavings ─────────────────────────────────────────────────────

  /** A drained batch: its time stamp is taken before the transaction; after a failure its ids go back one by one. */
  datatype Phase = Drained | Stamped(stamp: nat) | Failed

  datatype Batch = Batch(ids: set<int>, phase: Phase)

  datatype State = State(pending: set<int>, batches: map<nat, Batch>, stored: Stored)

  datatype Event =
    | Note(key: int, at: nat)
    | Drain(f: nat, at: nat)
    | Stamp(f: nat, at: nat)
    | Commit(f: nat, at: nat)
    | Fail(f: nat, at: nat)
    | Requeue(f: nat, key: int, at: nat)
    | Remove(key: int, at: nat)

  function Close(batches: map<nat, Batch>, f: nat, b: Batch): map<nat, Batch> {
    if b.ids == {} then batches - {f} else batches[f := b]
  }

  /** A step that the flusher is not ready for changes nothing. */
  function Step(s: State, e: Event): State {
    match e
    case Note(k, _) => s.(pending := s.pending + {k})
    case Drain(f, _) =>
      if f in s.batches || s.pending == {} then s
      else s.(pending := {}, batches := s.batches[f := Batch(s.pending, Drained)])
    case Stamp(f, now) =>
      if f in s.batches && s.batches[f].phase.Drained?
      then s.(batches := s.batches[f := s.batches[f].(phase := Stamped(now))]) else s
    case Commit(f, _) =>
      if f in s.batches && s.batches[f].phase.Stamped?
      then s.(batches := s.batches - {f}, stored := Write(s.stored, s.batches[f].ids, s.batches[f].phase.stamp)) else s
    case Fail(f, _) =>
      if f in s.batches && !s.batches[f].phase.Failed?
      then s.(batches := s.batches[f := s.batches[f].(phase := Failed)]) else s
    case Requeue(f, k, _) =>
      if f in s.batches && s.batches[f].phase.Failed? && k in s.batches[f].ids
      then s.(pending := s.pending + {k}, batches := Close(s.batches, f, Batch(s.batches[f].ids - {k}, Failed))) else s
    case Remove(k, _) => s.(stored := s.stored - {k})
  }

  function After(start: Stored, es: seq<Event>, n: nat): State
    requires n <= |es|
  {
    if n == 0 then State({}, map[], start) else Step(After(start, es, n - 1), es[n - 1])
  }

  // ── One flush, alone ──────────────────────────────────────────────────

  /** The steps of one flush: drain, stamp, and commit, or fail and put the ids back one by one. */
  function Replay(s: State, es: seq<Event>): State {
    if es == [] then s else Step(Replay(s, es[..|es| - 1]), es[|es| - 1])
  }

  lemma ReplayOne(s: State, es: seq<Event>, e: Event)
    ensures Replay(s, es + [e]) == Step(Replay(s, es), e)
  {
    assert (es + [e])[..|es|] == es;
  }

  lemma ReplayThree(s: State, f: nat, now: nat, last: Event)
    requires f !in s.batches && s.pending != {}
    ensures Replay(s, [Drain(f, now), Stamp(f, now), last])
      == Step(s.(pending := {}, batches := s.batches[f := Batch(s.pending, Stamped(now))]), last)
  {
    var drain, stamp := Drain(f, now), Stamp(f, now);
    var drained := s.(pending := {}, batches := s.batches[f := Batch(s.pending, Drained)]);
    assert Replay(s, [drain]) == drained by {
      ReplayOne(s, [], drain);
      assert [] + [drain] == [drain];
    }
    var stamped := drained.(batches := s.batches[f := Batch(s.pending, Stamped(now))]);
    assert Replay(s, [drain, stamp]) == stamped by {
      ReplayOne(s, [drain], stamp);
      assert [drain] + [stamp] == [drain, stamp];
      assert Step(drained, stamp) == stamped;
    }
    ReplayOne(s, [drain, stamp], last);
    assert [drain, stamp] + [last] == [drain, stamp, last];
  }

  /** One flush: everything pending is written, or everything is pending again; `steps` are its protocol steps. */
  method FlushOnce(db: Database, tracker: Tracker, now: nat, commits: bool)
    returns (written: Option<nat>, ghost steps: seq<Event>)
    modifies db, tracker
    ensures written.Some? ==> written.value == |old(tracker.pending)| && tracker.pending == {}
    ensures written.Some? ==> db.stored == Write(old(db.stored), old(tracker.pending), now)
    ensures written.None? ==> db.stored == old(db.stored) && tracker.pending == old(tracker.pending)
    ensures written.None? <==> !commits && old(tracker.pending) != {}
    ensures Replay(State(old(tracker.pending), map[], old(db.stored)), steps)
      == State(tracker.pending, map[], db.stored)
  {
    ghost var before := State(tracker.pending, map[], db.stored);
    var ids := tracker.Drain();
    steps := [];
    if ids == {} {
      assert Write(db.stored, ids, now) == db.stored;
      return Some(0), steps;
    }
    written := db.Flush(ids, now, commits);
    if written.Some? {
      steps := [Drain(0, now), Stamp(0, now), Commit(0, now)];
      ReplayThree(before, 0, now, Commit(0, now));
      assert map[0 := Batch(ids, Stamped(now))] - {0} == map[];
    } else {
      steps := [Drain(0, now), Stamp(0, now), Fail(0, now)];
      ReplayThree(before, 0, now, Fail(0, now));
      var left := ids;
      while left != {}
        invariant left <= ids && tracker.pending == ids - left
        invariant db.stored == old(db.stored)
        invariant Replay(before, steps)
          == State(tracker.pending, if left == {} then map[] else map[0 := Batch(left, Failed)], db.stored)
        decreases left
      {
        var id := Pick(left);
        tracker.Note(id);
        left := left - {id};
        ReplayOne(before, steps, Requeue(0, id, now));
        steps := steps + [Requeue(0, id, now)];
      }
    }
  }

  // ── Runs ──────────────────────────────────────────────────────────────

  predicate Monotone(es: seq<Event>) {
    forall i, j :: 0 <= i <= j < |es| ==> es[i].at <= es[j].at
  }

  /** A use at time `t` is pending, in a batch, or stored with a time that is no earlier; or the key is gone. */
  ghost predicate Accounted(s: State, k: int, t: nat) {
    || k in s.pending
    || (exists f :: f in s.batches && k in s.batches[f].ids)
    || k !in s.stored
    || (s.stored[k].Some? && s.stored[k].value >= t)
  }

  predicate Commits(s: State, e: Event, k: int) {
    e.Commit? && e.f in s.batches && s.batches[e.f].phase.Stamped? && k in s.batches[e.f].ids
  }

  /** A commit from before the use is the last that is known of the key. */
  ghost predicate Loses(s: State, e: Event, k: int, t: nat) {
    && Commits(s, e, k) && s.batches[e.f].phase.stamp < t
    && k in s.stored && k !in s.pending
    && (forall f :: f in s.batches && k in s.batches[f].ids ==> f == e.f)
  }

  /** Exactly which steps lose a use: no drain, failure, re-queueing or removal does. */
  lemma StepLosesIff(s: State, e: Event, k: int, t: nat)
    requires Accounted(s, k, t)
    ensures !Accounted(Step(s, e), k, t) <==> Loses(s, e, k, t)
  {
    var s' := Step(s, e);
    if f :| f in s.batches && k in s.batches[f].ids && !(Commits(s, e, k) && f == e.f) && k !in s'.pending {
      assert f in s'.batches && k in s'.batches[f].ids;
    } else if k in s.pending && e.Drain? && e.f !in s.batches {
      assert k in s'.batches[e.f].ids;
    }
  }

  lemma {:induction false} UnlostAccounted(start: Stored, es: seq<Event>, i: nat, n: nat)
    requires i < n <= |es| && es[i].Note?
    requires forall j :: i < j < n ==> !Loses(After(start, es, j), es[j], es[i].key, es[i].at)
    ensures Accounted(After(start, es, n), es[i].key, es[i].at)
  {
    if n == i + 1 {
    } else {
      UnlostAccounted(start, es, i, n - 1);
      StepLosesIff(After(start, es, n - 1), es[n - 1], es[i].key, es[i].at);
    }
  }

  ghost predicate StaysAccounted(start: Stored, es: seq<Event>, i: nat)
    requires i < |es| && es[i].Note?
  {
    forall m :: i < m <= |es| ==> Accounted(After(start, es, m), es[i].key, es[i].at)
  }

  ghost predicate NeverLoses(start: Stored, es: seq<Event>, i: nat)
    requires i < |es| && es[i].Note?
  {
    forall j :: i < j < |es| ==> !Loses(After(start, es, j), es[j], es[i].key, es[i].at)
  }

  /** Over any run, with any number of flushes at once: a use stays accounted for exactly when no step loses it. */
  lemma StaysAccountedIff(start: Stored, es: seq<Event>, i: nat)
    requires i < |es| && es[i].Note?
    ensures StaysAccounted(start, es, i) <==> NeverLoses(start, es, i)
  {
    var k, t := es[i].key, es[i].at;
    if NeverLoses(start, es, i) {
      forall m | i < m <= |es| ensures Accounted(After(start, es, m), k, t) {
        UnlostAccounted(start, es, i, m);
      }
    }
    if StaysAccounted(start, es, i) {
      forall j | i < j < |es| ensures !Loses(After(start, es, j), es[j], k, t) {
        StepLosesIff(After(start, es, j), es[j], k, t);
        assert Accounted(After(start, es, j + 1), k, t);
      }
    }
  }

  /** No commit writes a key a stamp older than the one stored. */
  ghost predicate InOrder(start: Stored, es: seq<Event>) {
    forall j, k :: 0 <= j < |es| && Commits(After(start, es, j), es[j], k) ==> Advances(After(start, es, j), es[j].f, k)
  }

  predicate Advances(s: State, f: nat, k: int)
    requires f in s.batches && s.batches[f].phase.Stamped?
  {
    k in s.stored && s.stored[k].Some? ==> s.stored[k].value <= s.batches[f].phase.stamp
  }

  /** The induction: whatever batch answers for the use does not carry a stamp from before it. */
  ghost predicate Covered(s: State, k: int, t: nat) {
    || k in s.pending
    || (exists f :: Carries(s, f, k, t))
    || k !in s.stored
    || (s.stored[k].Some? && s.stored[k].value >= t)
  }

  predicate Carries(s: State, f: nat, k: int, t: nat) {
    f in s.batches && k in s.batches[f].ids && (s.batches[f].phase.Stamped? ==> s.batches[f].phase.stamp >= t)
  }

  lemma StepCovers(s: State, e: Event, k: int, t: nat)
    requires Covered(s, k, t) && e.at >= t && (Commits(s, e, k) ==> Advances(s, e.f, k))
    ensures Covered(Step(s, e), k, t)
  {
    var s' := Step(s, e);
    if k !in s'.pending {
      if k in s.pending {
        assert Carries(s', e.f, k, t);
      } else if f :| Carries(s, f, k, t) {
        assert Carries(s', f, k, t) || (Commits(s, e, k) && e.f == f);
      }
    }
  }

  lemma {:induction false} RunCovers(start: Stored, es: seq<Event>, i: nat, n: nat)
    requires i < n <= |es| && Monotone(es) && InOrder(start, es) && es[i].Note?
    ensures Covered(After(start, es, n), es[i].key, es[i].at)
  {
    if n == i + 1 {
    } else {
      RunCovers(start, es, i, n - 1);
      StepCovers(After(start, es, n - 1), es[n - 1], es[i].key, es[i].at);
    }
  }

  /** No use is lost, however flushes overlap, as long as their commits do not put a stored time back. */
  lemma NoLostNote(start: Stored, es: seq<Event>, i: nat, n: nat)
    requires i < n <= |es| && Monotone(es) && InOrder(start, es) && es[i].Note?
    ensures Accounted(After(start, es, n), es[i].key, es[i].at)
  {
    RunCovers(start, es, i, n);
    var s := After(start, es, n);
    if f :| Carries(s, f, es[i].key, es[i].at) {
      assert f in s.batches && es[i].key in s.batches[f].ids;
    }
  }

  // One flush at a time.

  /** Nothing is drained while a batch is out. */
  ghost predicate Serial(start: Stored, es: seq<Event>) {
    forall i :: 0 <= i < |es| && es[i].Drain? ==> After(start, es, i).batches == map[]
  }

  /** Unless the key is pending, no batch carries a stamp from before the use. */
  ghost predicate Alone(s: State, k: int, t: nat) {
    && Accounted(s, k, t)
    && (k !in s.pending ==> forall f :: f in s.batches && s.batches[f].phase.Stamped? ==> s.batches[f].phase.stamp >= t)
  }

  lemma StepAlone(s: State, e: Event, k: int, t: nat)
    requires Alone(s, k, t) && e.at >= t && (e.Drain? ==> s.batches == map[])
    ensures Alone(Step(s, e), k, t)
  {
    StepLosesIff(s, e, k, t);
  }

  /** Then no use is lost, whatever was stored before. */
  lemma {:induction false} SerialLosesNothing(start: Stored, es: seq<Event>, i: nat, n: nat)
    requires i < n <= |es| && Monotone(es) && Serial(start, es) && es[i].Note?
    ensures Alone(After(start, es, n), es[i].key, es[i].at)
    ensures Accounted(After(start, es, n), es[i].key, es[i].at)
  {
    if n == i + 1 {
    } else {
      SerialLosesNothing(start, es, i, n - 1);
      StepAlone(After(start, es, n - 1), es[n - 1], es[i].key, es[i].at);
    }
  }

  const OVERLAP: seq<Event> :=
    [Note(7, 0), Drain(0, 1), Stamp(0, 1), Note(7, 2), Drain(1, 3), Stamp(1, 3), Commit(1, 4), Commit(0, 5)]

  lemma OverlapDrained(start: Stored)
    ensures After(start, OVERLAP, 4) == State({7}, map[0 := Batch({7}, Stamped(1))], start)
  {
    assert After(start, OVERLAP, 1) == State({7}, map[], start);
    assert After(start, OVERLAP, 2) == State({}, map[0 := Batch({7}, Drained)], start);
    assert After(start, OVERLAP, 3) == State({}, map[0 := Batch({7}, Stamped(1))], start);
  }

  lemma OverlapCommitted(start: Stored)
    requires start == map[7 := None]
    ensures After(start, OVERLAP, 8) == State({}, map[], map[7 := Some(1)])
  {
    OverlapDrained(start);
    var b0 := Batch({7}, Stamped(1));
    assert After(start, OVERLAP, 5) == State({}, map[0 := b0, 1 := Batch({7}, Drained)], start);
    assert After(start, OVERLAP, 6) == State({}, map[0 := b0, 1 := Batch({7}, Stamped(3))], start);
    assert After(start, OVERLAP, 7) == State({}, map[0 := b0], map[7 := Some(3)]);
  }

  /** Two flushes at once, as when the final flush does not wait for the worker's: the earlier stamp may commit last. */
  lemma OverlapLosesNote()
    ensures Monotone(OVERLAP) && OVERLAP[3] == Note(7, 2)
    ensures !Accounted(After(map[7 := None], OVERLAP, 8), 7, 2)
  {
    OverlapCommitted(map[7 := None]);
  }
}
