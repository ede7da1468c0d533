/**
 The waiting loop of the registry as part of a run of the protocol: between its polls the other tasks
 take any steps of theirs, its own steps are enabled where it takes them, and it ends in the phase of
 its outcome.  So what is proved of waiters in runs holds of the loop.
 */
module WaitRefines {
  import opened Options
  import opened PendingNotifier
  import opened PendingProtocol

  /** What the other tasks do during one suspension, and how it ends. */
  datatype Burst = Burst(events: seq<Event>, at: int, signalled: bool)

  /** A step of the waiter itself. */
  predicate Own(e: Event, w: WaiterId) {
    !e.Commit? && !e.Bump? && !e.Remove? && e.w == w
  }

  predicate OthersOnly(bursts: seq<Burst>, w: WaiterId) {
    forall b, e :: b in bursts && e in b.events ==> !Own(e, w)
  }

  function BumpedKeys(es: seq<Event>): seq<NotifyKey> {
    if es == [] then [] else (if es[0].Bump? then [es[0].key] else []) + BumpedKeys(es[1..])
  }

  /** A burst as the loop sees it. */
  function PollOf(b: Burst): Poll {
    Poll(BumpedKeys(b.events), b.at, b.signalled)
  }

  function Polls(bursts: seq<Burst>): seq<Poll> {
    if bursts == [] then [] else [PollOf(bursts[0])] + Polls(bursts[1..])
  }

  /** How the suspension ends: a signal and a look, the deadline, or not yet. */
  function Resumed(w: WaiterId, b: Burst, deadline: int): seq<Event> {
    if b.signalled then [Signal(w), Check(w)] else if deadline <= b.at then [Deadline(w, b.at)] else []
  }

  function Steps(w: WaiterId, bursts: seq<Burst>, deadline: int): seq<Event> {
    if bursts == [] then []
    else bursts[0].events + Resumed(w, bursts[0], deadline) + Steps(w, bursts[1..], deadline)
  }

  /** The whole wait of a waiter that then knows its outcome. */
  function WaitSteps(w: WaiterId, start: int, hold: nat, bursts: seq<Burst>): seq<Event> {
    [EnterWait(w, start, hold), Check(w)] + Steps(w, bursts, start + hold)
  }

  function PhaseOf(outcome: Option<WaitOutcome>, since: nat, deadline: int): Phase {
    match outcome
    case Some(Woke) => Woken(since)
    case Some(Timeout) => TimedOut
    case None => Suspended(since, deadline)
  }

  // ── Taking steps ──────────────────────────────────────────────────────

  function Replay(s: State, es: seq<Event>): State
    decreases |es|
  {
    if es == [] then s else Replay(Apply(s, es[0]), es[1..])
  }

  /** Every step of the waiter is enabled where it is taken. */
  ghost predicate OwnTaken(s: State, es: seq<Event>, w: WaiterId)
    decreases |es|
  {
    es == [] || ((Own(es[0], w) ==> Enabled(s, [es[0]], 0)) && OwnTaken(Apply(s, es[0]), es[1..], w))
  }

  lemma {:induction false} ReplayConcat(s: State, es: seq<Event>, fs: seq<Event>, w: WaiterId)
    ensures Replay(s, es + fs) == Replay(Replay(s, es), fs)
    ensures OwnTaken(s, es + fs, w) <==> OwnTaken(s, es, w) && OwnTaken(Replay(s, es), fs, w)
    decreases |es|
  {
    if es == [] {
      assert es + fs == fs;
    } else {
      ReplayConcat(Apply(s, es[0]), es[1..], fs, w);
      assert (es + fs)[1..] == es[1..] + fs;
    }
  }

  /** The waiter, and the counter of its key. */
  ghost predicate Stands(s: State, w: WaiterId, key: NotifyKey, phase: Phase, gen: nat) {
    && w in s.waiters && s.waiters[w] == Waiter(key, phase)
    && GenOf(s.gens, key) == gen && gen < GEN_MODULUS
  }

  /** The steps take the waiter from where it stands to where it stands then. */
  ghost predicate Takes(s: State, es: seq<Event>, w: WaiterId, key: NotifyKey, phase: Phase, gen: nat) {
    OwnTaken(s, es, w) && Stands(Replay(s, es), w, key, phase, gen)
  }

  lemma {:induction false} TakesBoth(s: State, es: seq<Event>, fs: seq<Event>, w: WaiterId, key: NotifyKey,
                                     p: Phase, gen: nat, q: Phase, gen': nat)
    requires Takes(s, es, w, key, p, gen) && Takes(Replay(s, es), fs, w, key, q, gen')
    ensures Takes(s, es + fs, w, key, q, gen')
  {
    ReplayConcat(s, es, fs, w);
  }

  lemma {:induction false} OneStep(s: State, e: Event, w: WaiterId, key: NotifyKey, phase: Phase, gen: nat)
    requires (Own(e, w) ==> Enabled(s, [e], 0)) && Stands(Apply(s, e), w, key, phase, gen)
    ensures Takes(s, [e], w, key, phase, gen)
  {
    assert [e][1..] == [];
  }

  lemma {:induction false} TwoSteps(
      s: State, a: Event, b: Event, w: WaiterId, key: NotifyKey, p: Phase, q: Phase, gen: nat)
    requires Own(a, w) ==> Enabled(s, [a], 0)
    requires Stands(Apply(s, a), w, key, p, gen)
    requires (Own(b, w) ==> Enabled(Apply(s, a), [b], 0)) && Stands(Apply(Apply(s, a), b), w, key, q, gen)
    ensures Takes(s, [a, b], w, key, q, gen)
  {
    assert [a, b][1..] == [b];
    OneStep(Apply(s, a), b, w, key, q, gen);
  }

  // ── One burst ─────────────────────────────────────────────────────────

  function Bumping(e: Event, key: NotifyKey): nat {
    if e.Bump? && e.key == key then 1 else 0
  }

  lemma {:induction false} CountFirst(es: seq<Event>, key: NotifyKey)
    requires es != []
    ensures CountKey(BumpedKeys(es), key) == Bumping(es[0], key) + CountKey(BumpedKeys(es[1..]), key)
  {
  }

  lemma {:induction false} OtherStands(s: State, e: Event, w: WaiterId, key: NotifyKey, phase: Phase, gen: nat)
    requires Stands(s, w, key, phase, gen) && !Own(e, w)
    ensures Stands(Apply(s, e), w, key, phase, Wrap(gen, Bumping(e, key)))
  {
  }

  lemma {:induction false} TakesCons(s: State, es: seq<Event>, w: WaiterId, key: NotifyKey, phase: Phase, gen: nat)
    requires es != [] && !Own(es[0], w) && Takes(Apply(s, es[0]), es[1..], w, key, phase, gen)
    ensures Takes(s, es, w, key, phase, gen)
  {
  }

  lemma {:induction false} WrapCons(es: seq<Event>, key: NotifyKey, gen: nat)
    requires es != []
    ensures Wrap(Wrap(gen, Bumping(es[0], key)), CountKey(BumpedKeys(es[1..]), key))
      == Wrap(gen, CountKey(BumpedKeys(es), key))
  {
    var n, c := Bumping(es[0], key), CountKey(BumpedKeys(es[1..]), key);
    assert CountKey(BumpedKeys(es), key) == n + c by {
      CountFirst(es, key);
    }
    assert Wrap(Wrap(gen, n), c) == Wrap(gen, n + c) by {
      WrapAdd(gen, n, c);
    }
  }

  /** Other tasks' steps leave the waiter alone and count on its key. */
  lemma {:induction false} OthersTake(s: State, es: seq<Event>, w: WaiterId, key: NotifyKey, phase: Phase, gen: nat)
    requires Stands(s, w, key, phase, gen) && forall e :: e in es ==> !Own(e, w)
    ensures Takes(s, es, w, key, phase, Wrap(gen, CountKey(BumpedKeys(es), key)))
    decreases |es|
  {
    if es == [] {
    } else {
      assert es[0] in es;
      OtherStands(s, es[0], w, key, phase, gen);
      OthersTake(Apply(s, es[0]), es[1..], w, key, phase, Wrap(gen, Bumping(es[0], key)));
      WrapCons(es, key, gen);
      TakesCons(s, es, w, key, phase, Wrap(gen, CountKey(BumpedKeys(es), key)));
    }
  }

  /** The phase of a suspended waiter after a burst that left the counter at `gen`. */
  function Polled(since: nat, deadline: int, gen: nat, b: Burst): Phase {
    if !b.signalled && b.at < deadline then Suspended(since, deadline)
    else if gen > since then Woken(since)
    else if b.signalled then Suspended(since, deadline)
    else TimedOut
  }

  lemma {:induction false} ResumeTakes(
      s: State, w: WaiterId, key: NotifyKey, since: nat, deadline: int, gen: nat, b: Burst)
    requires Stands(s, w, key, Suspended(since, deadline), gen)
    ensures Takes(s, Resumed(w, b, deadline), w, key, Polled(since, deadline, gen, b), gen)
  {
    if b.signalled {
      TwoSteps(s, Signal(w), Check(w), w, key, Checking(since, deadline), Polled(since, deadline, gen, b), gen);
    } else if deadline <= b.at {
      OneStep(s, Deadline(w, b.at), w, key, Polled(since, deadline, gen, b), gen);
    }
  }

  lemma {:induction false} BurstTakes(
      s: State, w: WaiterId, key: NotifyKey, since: nat, deadline: int, gen: nat, b: Burst)
    requires Stands(s, w, key, Suspended(since, deadline), gen) && forall e :: e in b.events ==> !Own(e, w)
    ensures var gen' := Wrap(gen, CountKey(BumpedKeys(b.events), key));
      Takes(s, b.events + Resumed(w, b, deadline), w, key, Polled(since, deadline, gen', b), gen')
  {
    var p, gen' := Suspended(since, deadline), Wrap(gen, CountKey(BumpedKeys(b.events), key));
    OthersTake(s, b.events, w, key, p, gen);
    ResumeTakes(Replay(s, b.events), w, key, since, deadline, gen', b);
    TakesBoth(s, b.events, Resumed(w, b, deadline), w, key, p, gen', Polled(since, deadline, gen', b), gen');
  }

  // ── The whole wait ────────────────────────────────────────────────────

  /** The loop's answer in terms of its first burst. */
  lemma {:induction false} WaitOnFirst(key: NotifyKey, gen: nat, since: nat, deadline: int, bursts: seq<Burst>)
    requires bursts != []
    ensures var gen' := Wrap(gen, CountKey(BumpedKeys(bursts[0].events), key));
      var r := WaitOn(key, gen, since, deadline, Polls(bursts), false);
      var polled := Polled(since, deadline, gen', bursts[0]);
      if polled.Suspended? then
        var q := WaitOn(key, gen', since, deadline, Polls(bursts[1..]), false);
        r == (q.0, q.1 + 1)
      else r.1 == 1 && PhaseOf(r.0, since, deadline) == polled
  {
    assert Polls(bursts)[1..] == Polls(bursts[1..]);
  }

  /** The steps end the wait in the phase of its outcome. */
  ghost predicate Settles(s: State, es: seq<Event>, w: WaiterId, phase: Phase) {
    OwnTaken(s, es, w) && w in Replay(s, es).waiters && Replay(s, es).waiters[w].phase == phase
  }

  lemma {:induction false} SettlesLater(s: State, es: seq<Event>, fs: seq<Event>, w: WaiterId, key: NotifyKey,
                                        p: Phase, gen: nat, q: Phase)
    requires Takes(s, es, w, key, p, gen) && Settles(Replay(s, es), fs, w, q)
    ensures Settles(s, es + fs, w, q)
  {
    ReplayConcat(s, es, fs, w);
  }

  lemma {:induction false} SuspendedWait(
      s: State, w: WaiterId, key: NotifyKey, since: nat, deadline: int, gen: nat, bursts: seq<Burst>)
    requires Stands(s, w, key, Suspended(since, deadline), gen) && OthersOnly(bursts, w)
    requires WaitOn(key, gen, since, deadline, Polls(bursts), false).1 == |bursts|
    ensures Settles(s, Steps(w, bursts, deadline), w,
                    PhaseOf(WaitOn(key, gen, since, deadline, Polls(bursts), false).0, since, deadline))
    decreases |bursts|
  {
    if bursts == [] {
    } else {
      var b := bursts[0];
      var first, rest := b.events + Resumed(w, b, deadline), Steps(w, bursts[1..], deadline);
      var gen' := Wrap(gen, CountKey(BumpedKeys(b.events), key));
      var polled := Polled(since, deadline, gen', b);
      assert b in bursts;
      BurstTakes(s, w, key, since, deadline, gen, b);
      WaitOnFirst(key, gen, since, deadline, bursts);
      if polled.Suspended? {
        SuspendedWait(Replay(s, first), w, key, since, deadline, gen', bursts[1..]);
      } else {
        assert bursts[1..] == [] && rest == [];
      }
      SettlesLater(s, first, rest, w, key, polled, gen',
                   PhaseOf(WaitOn(key, gen, since, deadline, Polls(bursts), false).0, since, deadline));
    }
  }

  lemma {:induction false} WaitOnEntry(key: NotifyKey, gen: nat, since: nat, deadline: int, env: seq<Poll>)
    ensures WaitOn(key, gen, since, deadline, env, true) ==
      if gen > since then (Some(Woke), 0) else WaitOn(key, gen, since, deadline, env, false)
  {
  }

  lemma {:induction false} WaitSettles(
      s: State, w: WaiterId, key: NotifyKey, since: nat, start: int, hold: nat, gen: nat, bursts: seq<Burst>)
    requires Stands(s, w, key, Waiting(since), gen) && OthersOnly(bursts, w)
    requires WaitOn(key, gen, since, start + hold, Polls(bursts), true).1 == |bursts|
    ensures Settles(s, WaitSteps(w, start, hold, bursts), w,
                    PhaseOf(WaitOn(key, gen, since, start + hold, Polls(bursts), true).0, since, start + hold))
  {
    var enter, check, deadline := EnterWait(w, start, hold), Check(w), start + hold;
    var looked := if gen > since then Woken(since) else Suspended(since, deadline);
    TwoSteps(s, enter, check, w, key, Checking(since, deadline), looked, gen);
    WaitOnEntry(key, gen, since, deadline, Polls(bursts));
    if gen > since {
      assert bursts == [];
    } else {
      SuspendedWait(Replay(s, [enter, check]), w, key, since, deadline, gen, bursts);
    }
    SettlesLater(s, [enter, check], Steps(w, bursts, deadline), w, key, looked, gen,
                 PhaseOf(WaitOn(key, gen, since, deadline, Polls(bursts), true).0, since, deadline));
  }

  // ── As part of a run ──────────────────────────────────────────────────

  lemma {:induction false} AfterPrefix(es: seq<Event>, fs: seq<Event>, n: nat)
    requires n <= |es|
    ensures After(es + fs, n) == After(es, n)
  {
    if n == 0 {
    } else {
      AfterPrefix(es, fs, n - 1);
      assert (es + fs)[n - 1] == es[n - 1];
    }
  }

  lemma {:induction false} PrefixEnabled(es: seq<Event>, fs: seq<Event>, i: nat)
    requires i < |es| && Enabled(After(es, i), es, i)
    ensures Enabled(After(es + fs, i), es + fs, i)
  {
    AfterPrefix(es, fs, i);
    var full := es + fs;
    assert full[i] == es[i];
    if es[i].Bump? {
      var c :| 0 <= c < i && es[c] == Commit(es[i].row, es[i].content);
      assert full[c] == es[c];
    }
  }

  /** The other tasks play by the rules from event `i` on. */
  ghost predicate OthersObey(es: seq<Event>, i: nat, w: WaiterId) {
    forall x :: i <= x < |es| && !Own(es[x], w) ==> Enabled(After(es, x), es, x)
  }

  ghost predicate Lands(es: seq<Event>, s: State) {
    Run(es) && After(es, |es|) == s
  }

  lemma {:induction false} RunNext(es: seq<Event>, s: State, e: Event)
    requires Lands(es, s) && Enabled(s, es + [e], |es|)
    ensures Lands(es + [e], Apply(s, e))
  {
    var full := es + [e];
    AfterPrefix(es, [e], |es|);
    forall x | 0 <= x < |full| ensures Enabled(After(full, x), full, x) {
      if x < |es| {
        PrefixEnabled(es, [e], x);
      }
    }
  }

  /** What the first of the further events needs, it needs of the state alone or of the events before it. */
  lemma {:induction false} FirstEnabled(es: seq<Event>, s: State, fs: seq<Event>, w: WaiterId)
    requires Lands(es, s) && fs != [] && OwnTaken(s, fs, w) && OthersObey(es + fs, |es|, w)
    ensures Enabled(s, es + [fs[0]], |es|)
  {
    var full, one := es + fs, es + [fs[0]];
    AfterPrefix(es, fs, |es|);
    assert full[|es|] == fs[0] == one[|es|];
    if fs[0].Bump? {
      var c :| 0 <= c < |es| && full[c] == Commit(fs[0].row, fs[0].content);
      assert one[c] == full[c];
    }
  }

  lemma {:induction false} RunsOn(es: seq<Event>, s: State, fs: seq<Event>, w: WaiterId)
    requires Lands(es, s) && OwnTaken(s, fs, w) && OthersObey(es + fs, |es|, w)
    ensures Lands(es + fs, Replay(s, fs))
    decreases |fs|
  {
    if fs == [] {
      assert es + fs == es;
    } else {
      FirstEnabled(es, s, fs, w);
      RunNext(es, s, fs[0]);
      assert es + [fs[0]] + fs[1..] == es + fs;
      RunsOn(es + [fs[0]], Apply(s, fs[0]), fs[1..], w);
    }
  }

  /** The loop's answer to a wait that begins at the end of `es`. */
  ghost function Answer(es: seq<Event>, key: NotifyKey, since: nat, deadline: int, bursts: seq<Burst>)
    : (Option<WaitOutcome>, nat)
  {
    WaitOn(key, GenOf(After(es, |es|).gens, key), since, deadline, Polls(bursts), true)
  }

  /** A waiter of a run enters the wait, and the loop is over, or suspended again, after the given bursts. */
  ghost predicate Waits(es: seq<Event>, w: WaiterId, key: NotifyKey, since: nat, start: int, hold: nat,
                        bursts: seq<Burst>)
  {
    && Run(es) && w in After(es, |es|).waiters && After(es, |es|).waiters[w] == Waiter(key, Waiting(since))
    && OthersOnly(bursts, w) && OthersObey(es + WaitSteps(w, start, hold, bursts), |es|, w)
    && Answer(es, key, since, start + hold, bursts).1 == |bursts|
  }

  /** The waiter's phase at the end of a run. */
  ghost predicate EndsIn(es: seq<Event>, w: WaiterId, phase: Phase) {
    Run(es) && w in After(es, |es|).waiters && After(es, |es|).waiters[w].phase == phase
  }

  /**
   With the waiter's steps the run goes on as a run, and ends with the waiter woken, timed out or suspended
   as the outcome of the loop says.
   */
  lemma {:induction false} WaitIsRun(
      es: seq<Event>, w: WaiterId, key: NotifyKey, since: nat, start: int, hold: nat, bursts: seq<Burst>)
    requires Waits(es, w, key, since, start, hold, bursts)
    ensures EndsIn(es + WaitSteps(w, start, hold, bursts), w,
                   PhaseOf(Answer(es, key, since, start + hold, bursts).0, since, start + hold))
  {
    var s, fs := After(es, |es|), WaitSteps(w, start, hold, bursts);
    assert GenOf(s.gens, key) < GEN_MODULUS by {
      GenCountsBumps(es, |es|, key);
    }
    WaitSettles(s, w, key, since, start, hold, GenOf(s.gens, key), bursts);
    RunsOn(es, s, fs, w);
  }

  // ── What the loop inherits ────────────────────────────────────────────

  predicate LastIsDeadline(es: seq<Event>, w: WaiterId) {
    es != [] && es[|es| - 1].Deadline? && es[|es| - 1].w == w
  }

  lemma {:induction false} LastOfConcat(a: seq<Event>, b: seq<Event>, w: WaiterId)
    requires LastIsDeadline(b, w)
    ensures LastIsDeadline(a + b, w)
  {
  }

  lemma {:induction false} EndsWithDeadline(
      key: NotifyKey, gen: nat, since: nat, deadline: int, bursts: seq<Burst>, w: WaiterId)
    requires WaitOn(key, gen, since, deadline, Polls(bursts), false) == (Some(Timeout), |bursts|)
    ensures LastIsDeadline(Steps(w, bursts, deadline), w)
    decreases |bursts|
  {
    if bursts == [] {
    } else {
      var b := bursts[0];
      var gen' := Wrap(gen, CountKey(BumpedKeys(b.events), key));
      WaitOnFirst(key, gen, since, deadline, bursts);
      if Polled(since, deadline, gen', b).Suspended? {
        EndsWithDeadline(key, gen', since, deadline, bursts[1..], w);
        LastOfConcat(b.events + Resumed(w, b, deadline), Steps(w, bursts[1..], deadline), w);
      } else {
        assert bursts[1..] == [] && Steps(w, bursts[1..], deadline) == [];
      }
    }
  }

  lemma {:induction false} WaitEndsWithDeadline(
      es: seq<Event>, key: NotifyKey, since: nat, start: int, hold: nat, bursts: seq<Burst>, w: WaiterId)
    requires Answer(es, key, since, start + hold, bursts) == (Some(Timeout), |bursts|)
    ensures LastIsDeadline(es + WaitSteps(w, start, hold, bursts), w)
  {
    var gen, deadline := GenOf(After(es, |es|).gens, key), start + hold;
    WaitOnEntry(key, gen, since, deadline, Polls(bursts));
    EndsWithDeadline(key, gen, since, deadline, bursts, w);
    LastOfConcat([EnterWait(w, start, hold), Check(w)], Steps(w, bursts, deadline), w);
    LastOfConcat(es, WaitSteps(w, start, hold, bursts), w);
  }

  lemma {:induction false} TimeoutGivesUp(es: seq<Event>, fs: seq<Event>, w: WaiterId, key: NotifyKey, s: nat, q: nat)
    requires EndsIn(es + fs, w, TimedOut) && LastIsDeadline(es + fs, w) && fs != []
    requires s < q < |es| && es[s] == Snapshot(w, key) && es[q] == Query(w)
    ensures GaveUp(es + fs, s, q, |es + fs| - 1) && (es + fs)[s].key == key
  {
    assert (es + fs)[s] == es[s] && (es + fs)[q] == es[q];
  }

  /** So a loop that times out after an empty query gives up in the sense of the theorems on timed-out waiters. */
  lemma {:induction false} LoopGivesUp(
      es: seq<Event>, w: WaiterId, key: NotifyKey, since: nat, start: int, hold: nat, bursts: seq<Burst>,
      s: nat, q: nat)
    requires Waits(es, w, key, since, start, hold, bursts)
    requires Answer(es, key, since, start + hold, bursts).0 == Some(Timeout)
    requires s < q < |es| && es[s] == Snapshot(w, key) && es[q] == Query(w)
    ensures var full := es + WaitSteps(w, start, hold, bursts); GaveUp(full, s, q, |full| - 1) && full[s].key == key
  {
    WaitIsRun(es, w, key, since, start, hold, bursts);
    WaitEndsWithDeadline(es, key, since, start, hold, bursts, w);
    TimeoutGivesUp(es, WaitSteps(w, start, hold, bursts), w, key, s, q);
  }
}
