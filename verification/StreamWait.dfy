/**
 The stream's waiter queries when it connects and takes its snapshot afterwards, so that the rows it has
 already sent do not wake it.  The order has a price, and this is exactly it: a row committed after the
 query and bumped before the snapshot is neither sent nor waited for, until the heartbeat queries again.
 */
module StreamWait {
  import opened PendingNotifier
  import opened PendingProtocol

  /** Query `q`, then snapshot `s`, then a look `t` that finds the counter no higher. */
  ghost predicate Quiet(es: seq<Event>, q: nat, s: nat, t: nat, key: NotifyKey) {
    && Run(es) && q <= s <= t <= |es| && NoWrap(es, s, t, key)
    && GenOf(After(es, t).gens, key) <= GenOf(After(es, s).gens, key)
  }

  lemma {:induction false} QuietBumps(es: seq<Event>, q: nat, s: nat, t: nat, key: NotifyKey)
    requires Quiet(es, q, s, t, key)
    ensures forall b :: s <= b < t && es[b].Bump? ==> es[b].key != key
  {
    CounterSeesBumps(es, s, t, key);
    BumpsGrow(es, s, t, key);
  }

  lemma {:induction false} CommittedGrow(es: seq<Event>, m: nat, n: nat)
    requires m <= n <= |es|
    ensures After(es, m).everCommitted <= After(es, n).everCommitted
  {
    if m == n {
    } else {
      CommittedGrow(es, m, n - 1);
    }
  }

  lemma {:induction false} StoredWereCommitted(es: seq<Event>, n: nat)
    requires n <= |es|
    ensures After(es, n).store.Keys <= After(es, n).everCommitted
  {
    if n == 0 {
    } else {
      StoredWereCommitted(es, n - 1);
    }
  }

  /** A row still stored was there at every instant since its commit, and not before. */
  lemma {:induction false} StoredSince(es: seq<Event>, c: nat, q: nat, t: nat)
    requires Run(es) && c < t <= |es| && q <= t && es[c].Commit? && es[c].row in After(es, t).store
    ensures es[c].row in After(es, q).store <==> c < q
    ensures c < q ==> After(es, q).store[es[c].row] == es[c].content
  {
    RowHistory(es, c, t);
    assert Enabled(After(es, c), es, c);
    if c < q {
      RowHistory(es, c, q);
    } else {
      CommittedGrow(es, q, c);
      StoredWereCommitted(es, q);
    }
  }

  /**
   At a quiet look, every bumped row that is still stored was bumped before the snapshot, and the stream's
   query missed it exactly when it was committed after the query.
   */
  lemma {:induction false} MissedIff(es: seq<Event>, q: nat, s: nat, t: nat, key: NotifyKey, b: nat)
    requires Quiet(es, q, s, t, key) && b < t && es[b].Bump? && es[b].key == key && es[b].row in After(es, t).store
    ensures b < s
    ensures es[b].row !in Visible(After(es, q).store, key) <==>
      exists c :: q <= c < b && es[c] == Commit(es[b].row, es[b].content)
  {
    QuietBumps(es, q, s, t, key);
    assert Enabled(After(es, b), es, b);
    var c :| 0 <= c < b && es[c] == Commit(es[b].row, es[b].content);
    StoredSince(es, c, q, t);
    if d :| q <= d < b && es[d] == Commit(es[b].row, es[b].content) {
      StoredSince(es, d, q, t);
    }
  }

  /** It happens: a commit and its bump between query and snapshot. */
  lemma {:induction false} MissedRow(row: Row, key: NotifyKey)
    requires Matches(row, key)
    ensures var es := [Commit(0, row), Bump(0, row, key)];
      && Quiet(es, 0, 2, 2, key)
      && 0 in Visible(After(es, 2).store, key) && 0 !in Visible(After(es, 0).store, key)
  {
    var es := [Commit(0, row), Bump(0, row, key)];
    assert After(es, 0) == State(map[], map[], {}, map[]);
    assert After(es, 1) == State(map[], map[0 := row], {0}, map[]);
    assert Enabled(After(es, 0), es, 0);
    assert Enabled(After(es, 1), es, 1) by {
      assert es[0] == Commit(0, row);
    }
  }

  /** The next query, at the heartbeat, sees it. */
  lemma {:induction false} HeartbeatSees(es: seq<Event>, q: nat, s: nat, t: nat, key: NotifyKey, b: nat)
    requires Quiet(es, q, s, t, key) && b < t && es[b].Bump? && es[b].key == key && es[b].row in After(es, t).store
    ensures es[b].row in Visible(After(es, t).store, key)
  {
    assert Enabled(After(es, b), es, b);
    var c :| 0 <= c < b && es[c] == Commit(es[b].row, es[b].content);
    StoredSince(es, c, t, t);
  }
}
