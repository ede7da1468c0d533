/**
 What a 64-bit counter costs the wake-up protocol: a run in which exactly 2^64 bumps come between a
 waiter's snapshot and its final look, and the waiter gives up on a row that is there to be read.
 */
module WrappedWait {
  import opened PendingNotifier
  import opened PendingProtocol

  /** Snapshot, empty query, a commit, 2^64 bumps of its key, and then the wait. */
  function Wrapping(k: NotifyKey, row: Row): seq<Event> {
    [Snapshot(0, k), Query(0), Commit(0, row)]
    + seq(GEN_MODULUS, _ => Bump(0, row, k))
    + [EnterWait(0, 0, 0), Check(0), Deadline(0, 0)]
  }

  ghost predicate Bumping(s: State, k: NotifyKey, row: Row, i: nat) {
    && GenOf(s.gens, k) == Wrap(0, i) && s.store == map[0 := row] && s.everCommitted == {0}
    && s.waiters == map[0 := Waiter(k, Waiting(0))]
  }

  lemma EventAt(k: NotifyKey, row: Row, j: nat)
    requires j < |Wrapping(k, row)|
    ensures |Wrapping(k, row)| == GEN_MODULUS + 6
    ensures var es := Wrapping(k, row);
      && (j == 0 ==> es[j] == Snapshot(0, k)) && (j == 1 ==> es[j] == Query(0)) && (j == 2 ==> es[j] == Commit(0, row))
      && (3 <= j < GEN_MODULUS + 3 ==> es[j] == Bump(0, row, k))
      && (j == GEN_MODULUS + 3 ==> es[j] == EnterWait(0, 0, 0)) && (j == GEN_MODULUS + 4 ==> es[j] == Check(0))
      && (j == GEN_MODULUS + 5 ==> es[j] == Deadline(0, 0))
  {
  }

  lemma AfterCommit(k: NotifyKey, row: Row)
    ensures |Wrapping(k, row)| >= 3 && Bumping(After(Wrapping(k, row), 3), k, row, 0)
    ensures After(Wrapping(k, row), 0) == State(map[], map[], {}, map[])
    ensures After(Wrapping(k, row), 1) == State(map[], map[], {}, map[0 := Waiter(k, Snapped(0))])
    ensures After(Wrapping(k, row), 2) == State(map[], map[], {}, map[0 := Waiter(k, Waiting(0))])
  {
    var es := Wrapping(k, row);
    EventAt(k, row, 0);
    EventAt(k, row, 1);
    EventAt(k, row, 2);
    assert After(es, 1) == State(map[], map[], {}, map[0 := Waiter(k, Snapped(0))]);
    assert Visible(map[], k) == {};
    assert After(es, 2) == State(map[], map[], {}, map[0 := Waiter(k, Waiting(0))]);
  }

  lemma {:induction false} AfterBumps(k: NotifyKey, row: Row, i: nat)
    requires i <= GEN_MODULUS
    ensures |Wrapping(k, row)| == GEN_MODULUS + 6 && Bumping(After(Wrapping(k, row), i + 3), k, row, i)
  {
    EventAt(k, row, 0);
    if i == 0 {
      AfterCommit(k, row);
    } else {
      AfterBumps(k, row, i - 1);
      EventAt(k, row, i + 2);
      WrapAdd(0, i - 1, 1);
    }
  }

  /** The wait itself: the counter is back where the snapshot was. */
  lemma AfterWait(k: NotifyKey, row: Row)
    ensures |Wrapping(k, row)| == GEN_MODULUS + 6
    ensures var es, n := Wrapping(k, row), GEN_MODULUS;
      && After(es, n + 4).waiters == map[0 := Waiter(k, Checking(0, 0))]
      && After(es, n + 5).waiters == map[0 := Waiter(k, Suspended(0, 0))]
      && After(es, n + 6).waiters == map[0 := Waiter(k, TimedOut)]
      && After(es, n + 5).store == map[0 := row]
  {
    var es, n := Wrapping(k, row), GEN_MODULUS;
    AfterBumps(k, row, n);
    EventAt(k, row, n + 3);
    EventAt(k, row, n + 4);
    EventAt(k, row, n + 5);
    assert GenOf(After(es, n + 3).gens, k) == 0;
    assert After(es, n + 4).waiters == map[0 := Waiter(k, Checking(0, 0))];
    assert After(es, n + 5).waiters == map[0 := Waiter(k, Suspended(0, 0))];
  }

  lemma WrappingRuns(k: NotifyKey, row: Row)
    requires Matches(row, k)
    ensures Run(Wrapping(k, row))
  {
    var es := Wrapping(k, row);
    AfterCommit(k, row);
    AfterWait(k, row);
    forall j | 0 <= j < |es| ensures Enabled(After(es, j), es, j) {
      EventAt(k, row, j);
      if 3 <= j <= GEN_MODULUS + 3 {
        AfterBumps(k, row, j - 3);
        EventAt(k, row, 2);
      }
    }
  }

  /** The waiter gives up although the row it waits for is stored and was bumped after its snapshot. */
  lemma WrapMissesRow(k: NotifyKey, row: Row)
    requires Matches(row, k)
    ensures var es, t := Wrapping(k, row), 0x1_0000_0000_0000_0005;
      && GaveUp(es, 0, 1, t) && es[0].key == k && es[3] == Bump(0, row, k)
      && 0 in Visible(After(es, t).store, k) && !NoWrap(es, 0, t, k)
  {
    var es, t := Wrapping(k, row), GEN_MODULUS + 5;
    WrappingRuns(k, row);
    AfterWait(k, row);
    EventAt(k, row, 0);
    EventAt(k, row, 1);
    EventAt(k, row, 3);
    EventAt(k, row, t);
    NoBumpSinceSnapshotIff(es, 0, 1, t);
  }
}
