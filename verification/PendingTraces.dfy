/** What a waiter's result says of the run: the rows it was given, and the deadline it waited for. */
module PendingTraces {
  import opened PendingNotifier
  import opened PendingProtocol

  /** These are the stored rows of the key's system, and for an address key, of its address. */
  predicate AreRowsOf(rows: set<RowId>, store: map<RowId, Row>, k: NotifyKey) {
    && (forall r :: r in rows ==>
          r in store && store[r].systemId == k.systemId && (k.Email? ==> store[r].email == k.email))
    && (forall r :: r in store && store[r].systemId == k.systemId && (k.Email? ==> store[r].email == k.email) ==>
          r in rows)
  }

  lemma VisibleAre(store: map<RowId, Row>, k: NotifyKey)
    ensures AreRowsOf(Visible(store, k), store, k)
  {
  }

  predicate HasPhase(es: seq<Event>, n: nat, w: WaiterId, k: NotifyKey, p: Phase)
    requires n <= |es|
  {
    w in After(es, n).waiters && After(es, n).waiters[w] == Waiter(k, p)
  }

  /** A finished waiter stays as it is. */
  predicate Finished(p: Phase) {
    p.Answered? || p.WokeWith? || p.TimedOut?
  }

  lemma {:induction false} FinishedAt(es: seq<Event>, n: nat, w: WaiterId, k: NotifyKey, p: Phase) returns (q: nat)
    requires Run(es) && n <= |es| && Finished(p) && HasPhase(es, n, w, k, p)
    ensures q < n && !HasPhase(es, q, w, k, p) && HasPhase(es, q + 1, w, k, p)
  {
    q := n - 1;
    if HasPhase(es, n - 1, w, k, p) {
      q := FinishedAt(es, n - 1, w, k, p);
    }
  }

  /** An answer of the first query is not empty, and is what that query found under the waiter's key. */
  lemma AnswerTraces(es: seq<Event>, n: nat, w: WaiterId, k: NotifyKey, rows: set<RowId>) returns (q: nat)
    requires Run(es) && n <= |es| && HasPhase(es, n, w, k, Answered(rows))
    ensures q < n && es[q] == Query(w) && rows != {} && AreRowsOf(rows, After(es, q).store, k)
  {
    q := FinishedAt(es, n, w, k, Answered(rows));
    assert Enabled(After(es, q), es, q);
    VisibleAre(After(es, q).store, k);
  }

  /** A woken waiter is given what its second query finds, be it nothing. */
  lemma WokeTraces(es: seq<Event>, n: nat, w: WaiterId, k: NotifyKey, rows: set<RowId>) returns (q: nat)
    requires Run(es) && n <= |es| && HasPhase(es, n, w, k, WokeWith(rows))
    ensures q < n && es[q] == Requery(w) && AreRowsOf(rows, After(es, q).store, k)
  {
    q := FinishedAt(es, n, w, k, WokeWith(rows));
    assert Enabled(After(es, q), es, q);
    VisibleAre(After(es, q).store, k);
  }

  predicate Pending(p: Phase) {
    p.Checking? || p.Suspended?
  }

  /** The deadline of a wait is that of its beginning. */
  lemma {:induction false} WaitBegan(es: seq<Event>, n: nat, w: WaiterId) returns (b: nat)
    requires Run(es) && n <= |es| && w in After(es, n).waiters && Pending(After(es, n).waiters[w].phase)
    ensures b < n && es[b].EnterWait? && es[b].w == w
    ensures After(es, n).waiters[w].phase.deadline == es[b].start + es[b].hold
  {
    var s := After(es, n - 1);
    assert Enabled(s, es, n - 1);
    if w in s.waiters && Pending(s.waiters[w].phase) {
      b := WaitBegan(es, n - 1, w);
    } else {
      b := n - 1;
    }
  }

  /** A waiter gives up only at an instant no earlier than the beginning of its wait and the time it was to hold. */
  lemma TimeoutTraces(es: seq<Event>, n: nat, w: WaiterId, k: NotifyKey) returns (b: nat, d: nat)
    requires Run(es) && n <= |es| && HasPhase(es, n, w, k, TimedOut)
    ensures b < d < n && es[b].EnterWait? && es[b].w == w && es[d].Deadline? && es[d].w == w
    ensures es[d].now >= es[b].start + es[b].hold
  {
    d := FinishedAt(es, n, w, k, TimedOut);
    assert Enabled(After(es, d), es, d);
    b := WaitBegan(es, d, w);
  }
}
