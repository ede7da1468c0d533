/** The converse of losing no use: what is stored comes from a use, and a batch moves on one step at a time. */
module LastUsedSound {
  import opened Options
  import opened LastUsed

  // ── Batches, step by step ─────────────────────────────────────────────

  /** What a step makes of a batch that is out. */
  ghost predicate Becomes(s: State, e: Event, f: nat, s': State)
    requires f in s.batches
  {
    var b := s.batches[f];
    if e == Stamp(f, e.at) && b.phase == Drained then
      f in s'.batches && s'.batches[f] == Batch(b.ids, Stamped(e.at))
    else if e == Commit(f, e.at) && b.phase.Stamped? then
      f !in s'.batches
    else if e == Fail(f, e.at) && b.phase != Failed then
      f in s'.batches && s'.batches[f] == Batch(b.ids, Failed)
    else if e.Requeue? && e.f == f && b.phase == Failed && e.key in b.ids then
      && e.key in s'.pending
      && (b.ids == {e.key} ==> f !in s'.batches)
      && (b.ids != {e.key} ==> f in s'.batches && s'.batches[f] == Batch(b.ids - {e.key}, Failed))
    else
      f in s'.batches && s'.batches[f] == b
  }

  /**
   A batch is stamped once, committed only when stamped, and after a failure put back key by key; a drain that
   finds nothing starts none, and one that finds something takes it all.
   */
  lemma BatchAfter(s: State, e: Event, f: nat)
    ensures f in s.batches ==> Becomes(s, e, f, Step(s, e))
    ensures f !in s.batches ==>
      if e == Drain(f, e.at) && s.pending != {}
      then Step(s, e) == s.(pending := {}, batches := s.batches[f := Batch(s.pending, Drained)])
      else f !in Step(s, e).batches
  {
    if f in s.batches && e.Requeue? && e.f == f && s.batches[f].ids - {e.key} == {} {
      assert s.batches[f].ids <= {e.key};
    }
  }

  /** The table holds the keys it held at the start, less those removed. */
  lemma {:induction false} KeysStored(start: Stored, es: seq<Event>, n: nat, k: int)
    requires n <= |es|
    ensures k in After(start, es, n).stored <==>
      k in start && forall i :: 0 <= i < n ==> !(es[i].Remove? && es[i].key == k)
  {
    if n == 0 {
    } else {
      KeysStored(start, es, n - 1, k);
    }
  }

  // ── No use out of nothing ─────────────────────────────────────────────

  ghost predicate Noted(es: seq<Event>, n: nat, k: int)
    requires n <= |es|
  {
    exists i :: 0 <= i < n && es[i].Note? && es[i].key == k
  }

  /** A flush was stamped with this time, after a use of each of these keys. */
  ghost predicate StampedAfterUse(es: seq<Event>, n: nat, stamp: nat, ids: set<int>)
    requires n <= |es|
  {
    exists j :: 0 <= j < n && es[j].Stamp? && es[j].at == stamp && forall k :: k in ids ==> Noted(es, j, k)
  }

  ghost predicate BatchOk(es: seq<Event>, n: nat, b: Batch)
    requires n <= |es|
  {
    && (forall k :: k in b.ids ==> Noted(es, n, k))
    && (b.phase.Stamped? ==> StampedAfterUse(es, n, b.phase.stamp, b.ids))
  }

  /** The stored time is as at the start, or a flush's after a use of the key. */
  ghost predicate StoredOk(start: Stored, es: seq<Event>, n: nat, k: int, at: Option<nat>)
    requires n <= |es|
  {
    (k in start && at == start[k]) || (at.Some? && StampedAfterUse(es, n, at.value, {k}))
  }

  ghost predicate Sound(start: Stored, es: seq<Event>, n: nat, s: State)
    requires n <= |es|
  {
    && (forall k :: k in s.pending ==> Noted(es, n, k))
    && (forall f :: f in s.batches ==> BatchOk(es, n, s.batches[f]))
    && (forall k :: k in s.stored ==> StoredOk(start, es, n, k, s.stored[k]))
  }

  lemma NotedLater(es: seq<Event>, n: nat, k: int)
    requires n < |es|
    ensures Noted(es, n, k) ==> Noted(es, n + 1, k)
    ensures es[n].Note? && es[n].key == k ==> Noted(es, n + 1, k)
  {
  }

  lemma StampedLater(es: seq<Event>, n: nat, stamp: nat, ids: set<int>, more: set<int>)
    requires n < |es| && StampedAfterUse(es, n, stamp, more) && ids <= more
    ensures StampedAfterUse(es, n, stamp, ids) && StampedAfterUse(es, n + 1, stamp, ids)
  {
    var j :| 0 <= j < n && es[j].Stamp? && es[j].at == stamp && forall k :: k in more ==> Noted(es, j, k);
    assert forall k :: k in ids ==> Noted(es, j, k);
  }

  lemma BatchLater(es: seq<Event>, n: nat, b: Batch)
    requires n < |es| && BatchOk(es, n, b)
    ensures BatchOk(es, n + 1, b)
  {
    forall k | k in b.ids ensures Noted(es, n + 1, k) {
      NotedLater(es, n, k);
    }
    if b.phase.Stamped? {
      StampedLater(es, n, b.phase.stamp, b.ids, b.ids);
    }
  }

  /** What becomes of the batch of a step is as sound as before. */
  lemma BatchMoves(start: Stored, es: seq<Event>, n: nat, s: State, f: nat)
    requires n < |es| && Sound(start, es, n, s) && f in Step(s, es[n]).batches
    ensures BatchOk(es, n + 1, Step(s, es[n]).batches[f])
  {
    var e, b' := es[n], Step(s, es[n]).batches[f];
    BatchAfter(s, e, f);
    if f !in s.batches {
      forall k | k in b'.ids ensures Noted(es, n + 1, k) {
        NotedLater(es, n, k);
      }
    } else {
      BatchLater(es, n, s.batches[f]);
      if e == Stamp(f, e.at) && s.batches[f].phase == Drained {
        assert es[n].Stamp? && forall k :: k in b'.ids ==> Noted(es, n, k);
        assert StampedAfterUse(es, n + 1, e.at, b'.ids);
      }
    }
  }

  lemma StoredMoves(start: Stored, es: seq<Event>, n: nat, s: State, k: int)
    requires n < |es| && Sound(start, es, n, s) && k in Step(s, es[n]).stored
    ensures StoredOk(start, es, n + 1, k, Step(s, es[n]).stored[k])
  {
    var e := es[n];
    if Commits(s, e, k) {
      var b := s.batches[e.f];
      assert BatchOk(es, n, b);
      StampedLater(es, n, b.phase.stamp, {k}, b.ids);
    } else if !(k in start && s.stored[k] == start[k]) {
      StampedLater(es, n, s.stored[k].value, {k}, {k});
    }
  }

  lemma StepSound(start: Stored, es: seq<Event>, n: nat, s: State)
    requires n < |es| && Sound(start, es, n, s)
    ensures Sound(start, es, n + 1, Step(s, es[n]))
  {
    var s' := Step(s, es[n]);
    forall k | k in s'.pending ensures Noted(es, n + 1, k) {
      NotedLater(es, n, k);
      if k !in s.pending && es[n].Requeue? {
        assert BatchOk(es, n, s.batches[es[n].f]);
      }
    }
    forall f | f in s'.batches ensures BatchOk(es, n + 1, s'.batches[f]) {
      BatchMoves(start, es, n, s, f);
    }
    forall k | k in s'.stored ensures StoredOk(start, es, n + 1, k, s'.stored[k]) {
      StoredMoves(start, es, n, s, k);
    }
  }

  lemma {:induction false} RunSound(start: Stored, es: seq<Event>, n: nat)
    requires n <= |es|
    ensures Sound(start, es, n, After(start, es, n))
  {
    if n == 0 {
    } else {
      RunSound(start, es, n - 1);
      StepSound(start, es, n - 1, After(start, es, n - 1));
    }
  }

  /**
   In every run, however flushes overlap and fail, the stored time of a key is the one it had at the start, or
   the stamp of a flush that was taken after a use of that key.
   */
  lemma NoPhantomUse(start: Stored, es: seq<Event>, n: nat, k: int)
    requires n <= |es| && k in After(start, es, n).stored
    requires k !in start || After(start, es, n).stored[k] != start[k]
    ensures After(start, es, n).stored[k].Some?
    ensures exists i, j ::
      && 0 <= i < j < n
      && es[i].Note? && es[i].key == k && es[j].Stamp? && After(start, es, n).stored[k] == Some(es[j].at)
  {
    RunSound(start, es, n);
    var at := After(start, es, n).stored[k];
    assert StoredOk(start, es, n, k, at);
    var j :| 0 <= j < n && es[j].Stamp? && es[j].at == at.value && forall x :: x in {k} ==> Noted(es, j, x);
    assert Noted(es, j, k);
    var i :| 0 <= i < j && es[i].Note? && es[i].key == k;
  }
}
