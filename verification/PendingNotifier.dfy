/**
 The wake-up registry for pending-delivery waiters: one generation counter per key, bumped by
 writers after their insert has committed, compared by waiters with an earlier snapshot.

 The counters are 64-bit and wrap; the one-shot signal carries no information here (it may be
 lost or spurious), so it only ever lets a waiter look at the counter again.
 */
module PendingNotifier {
  import opened Options

  /** A key matches the storage filter of the waiters that use it. */
  datatype NotifyKey = System(systemId: string) | Email(systemId: string, email: string)

  datatype WaitOutcome = Woke | Timeout

  const GEN_MODULUS: nat := 0x1_0000_0000_0000_0000

  type Gens = map<NotifyKey, nat>

  function GenOf(gens: Gens, k: NotifyKey): nat {
    if k in gens then gens[k] else 0
  }

  /** The counter after `n` further bumps. */
  function Wrap(g: nat, n: nat): nat {
    (g + n) % GEN_MODULUS
  }

  lemma WrapAdd(g: nat, m: nat, n: nat)
    ensures Wrap(Wrap(g, m), n) == Wrap(g, m + n)
  {
  }

  /** What the other tasks do while a waiter is suspended, and how the suspension ends. */
  datatype Poll = Poll(bumps: seq<NotifyKey>, at: int, signalled: bool)

  function CountKey(ks: seq<NotifyKey>, k: NotifyKey): nat {
    multiset(ks)[k]
  }

  function BumpsOn(env: seq<Poll>, k: NotifyKey): nat {
    if env == [] then 0 else BumpsOn(env[..|env| - 1], k) + CountKey(env[|env| - 1].bumps, k)
  }

  /**
   What a wait comes to: the outcome and the poll it is reached at, from the counter's value on entry.
   The counter is looked at when `recheck` is set, and at the deadline.
   */
  function WaitOn(key: NotifyKey, gen: nat, since: nat, deadline: int, env: seq<Poll>, recheck: bool)
    : (Option<WaitOutcome>, nat)
    decreases |env|
  {
    if recheck && gen > since then (Some(Woke), 0)
    else if env == [] then (None, 0)
    else
      var gen' := Wrap(gen, CountKey(env[0].bumps, key));
      if !env[0].signalled && deadline <= env[0].at then (Some(if gen' > since then Woke else Timeout), 1)
      else
        var (outcome, polls) := WaitOn(key, gen', since, deadline, env[1..], env[0].signalled);
        (outcome, polls + 1)
  }

  lemma {:induction false} BumpsFirst(env: seq<Poll>, k: NotifyKey)
    requires env != []
    ensures BumpsOn(env, k) == CountKey(env[0].bumps, k) + BumpsOn(env[1..], k)
  {
    if |env| == 1 {
    } else {
      var init := env[..|env| - 1];
      BumpsFirst(init, k);
      assert init[1..] == env[1..][..|env| - 2];
    }
  }

  /** A wait that is not over at its first poll goes on from there. */
  lemma {:induction false} WaitOnTail(
      key: NotifyKey, gen: nat, since: nat, deadline: int, env: seq<Poll>, recheck: bool)
    requires env != [] && WaitOn(key, gen, since, deadline, env, recheck).1 > 0
    ensures var r := WaitOn(key, gen, since, deadline, env, recheck);
      var q := WaitOn(key, Wrap(gen, CountKey(env[0].bumps, key)), since, deadline, env[1..], env[0].signalled);
      r == (q.0, q.1 + 1) || (r.1 == 1 && !env[0].signalled)
  {
  }

  ghost predicate WakesAt(key: NotifyKey, gen: nat, since: nat, deadline: int, env: seq<Poll>, recheck: bool, j: nat) {
    WaitOn(key, gen, since, deadline, env, recheck) == (Some(Woke), j)
  }

  /** The counter, as the bumps of the first `j` polls leave it, is above the snapshot. */
  ghost predicate Above(key: NotifyKey, gen: nat, since: nat, env: seq<Poll>, j: nat)
    requires j <= |env|
  {
    Wrap(gen, BumpsOn(env[..j], key)) > since
  }

  lemma AboveHead(key: NotifyKey, gen: nat, since: nat, env: seq<Poll>, j: nat)
    requires 0 < j <= |env|
    ensures Above(key, gen, since, env, j)
      <==> Above(key, Wrap(gen, CountKey(env[0].bumps, key)), since, env[1..], j - 1)
  {
    BumpsFirst(env[..j], key);
    assert env[..j][1..] == env[1..][..j - 1];
    WrapAdd(gen, CountKey(env[0].bumps, key), BumpsOn(env[1..][..j - 1], key));
  }

  /** At the first signalled poll that finds the counter above the snapshot, the wait ends with Woke. */
  lemma {:induction false} WokenAtSignal(
      key: NotifyKey, gen: nat, since: nat, deadline: int, env: seq<Poll>, recheck: bool, j: nat)
    requires 0 < j <= |env| && j <= WaitOn(key, gen, since, deadline, env, recheck).1
    requires env[j - 1].signalled && Above(key, gen, since, env, j)
    ensures WakesAt(key, gen, since, deadline, env, recheck, j)
    decreases j
  {
    var gen' := Wrap(gen, CountKey(env[0].bumps, key));
    AboveHead(key, gen, since, env, j);
    WaitOnTail(key, gen, since, deadline, env, recheck);
    if j == 1 {
      assert env[1..][..0] == [];
      assert WakesAt(key, gen', since, deadline, env[1..], true, 0);
    } else {
      WokenAtSignal(key, gen', since, deadline, env[1..], env[0].signalled, j - 1);
    }
  }

  /** The outcome fits the counter at the poll it is reached at: only a look past the deadline gives Timeout. */
  ghost predicate Fits(
      r: (Option<WaitOutcome>, nat), key: NotifyKey, gen: nat, since: nat, deadline: int, env: seq<Poll>)
  {
    && r.1 <= |env|
    && (r.0.None? ==> r.1 == |env|)
    && (r.0 == Some(Woke) ==> Above(key, gen, since, env, r.1))
    && (r.0 == Some(Timeout) ==> !Above(key, gen, since, env, r.1) && r.1 > 0 && deadline <= env[r.1 - 1].at)
  }

  lemma FitsLater(q: (Option<WaitOutcome>, nat), key: NotifyKey, gen: nat, since: nat, deadline: int, env: seq<Poll>)
    requires env != [] && Fits(q, key, Wrap(gen, CountKey(env[0].bumps, key)), since, deadline, env[1..])
    ensures Fits((q.0, q.1 + 1), key, gen, since, deadline, env)
  {
    AboveHead(key, gen, since, env, q.1 + 1);
  }

  lemma FitsFirst(key: NotifyKey, gen: nat, since: nat, deadline: int, env: seq<Poll>)
    requires env != [] && deadline <= env[0].at
    ensures var gen' := Wrap(gen, CountKey(env[0].bumps, key));
      Fits((Some(if gen' > since then Woke else Timeout), 1), key, gen, since, deadline, env)
  {
    AboveHead(key, gen, since, env, 1);
    assert env[1..][..0] == [];
  }

  /** Woke only with the counter above the snapshot, Timeout only past the deadline with the counter not above it. */
  lemma {:induction false} OutcomeFits(
      key: NotifyKey, gen: nat, since: nat, deadline: int, env: seq<Poll>, recheck: bool)
    requires gen < GEN_MODULUS
    ensures Fits(WaitOn(key, gen, since, deadline, env, recheck), key, gen, since, deadline, env)
    decreases |env|
  {
    if recheck && gen > since {
      assert env[..0] == [];
    } else if env == [] {
    } else if !env[0].signalled && deadline <= env[0].at {
      FitsFirst(key, gen, since, deadline, env);
    } else {
      var gen' := Wrap(gen, CountKey(env[0].bumps, key));
      OutcomeFits(key, gen', since, deadline, env[1..], env[0].signalled);
      FitsLater(WaitOn(key, gen', since, deadline, env[1..], env[0].signalled), key, gen, since, deadline, env);
    }
  }

  /** The wait that begins after the first `polls` polls ends as the whole wait does. */
  ghost predicate Ongoing(whole: (Option<WaitOutcome>, nat), key: NotifyKey, gen: nat, since: nat, deadline: int,
                          env: seq<Poll>, polls: nat, recheck: bool)
    requires polls <= |env|
  {
    var rest := WaitOn(key, gen, since, deadline, env[polls..], recheck);
    whole.0 == rest.0 && whole.1 == polls + rest.1
  }

  lemma {:induction false} OngoingStart(key: NotifyKey, gen: nat, since: nat, deadline: int, env: seq<Poll>)
    ensures Ongoing(WaitOn(key, gen, since, deadline, env, true), key, gen, since, deadline, env, 0, true)
  {
    assert env[0..] == env;
  }

  lemma {:induction false} OngoingOver(
      whole: (Option<WaitOutcome>, nat), key: NotifyKey, gen: nat, since: nat, deadline: int, env: seq<Poll>,
      polls: nat, recheck: bool)
    requires polls <= |env| && Ongoing(whole, key, gen, since, deadline, env, polls, recheck)
    ensures recheck && gen > since ==> whole == (Some(Woke), polls)
    ensures !(recheck && gen > since) && polls == |env| ==> whole == (None, polls)
  {
  }

  lemma {:induction false} OngoingLater(
      whole: (Option<WaitOutcome>, nat), key: NotifyKey, gen: nat, since: nat, deadline: int, env: seq<Poll>,
      polls: nat, recheck: bool)
    requires polls < |env| && !(recheck && gen > since)
    requires Ongoing(whole, key, gen, since, deadline, env, polls, recheck)
    ensures var p := env[polls];
      var gen' := Wrap(gen, CountKey(p.bumps, key));
      if !p.signalled && deadline <= p.at then whole == (Some(if gen' > since then Woke else Timeout), polls + 1)
      else Ongoing(whole, key, gen', since, deadline, env, polls + 1, p.signalled)
  {
    assert env[polls..][1..] == env[polls + 1..];
  }

  lemma BumpsNext(g: nat, env: seq<Poll>, polls: nat, k: NotifyKey)
    requires polls < |env|
    ensures Wrap(Wrap(g, BumpsOn(env[..polls], k)), CountKey(env[polls].bumps, k))
      == Wrap(g, BumpsOn(env[..polls + 1], k))
  {
    assert env[..polls + 1][..polls] == env[..polls];
    WrapAdd(g, BumpsOn(env[..polls], k), CountKey(env[polls].bumps, k));
  }

  ghost predicate SameGens(a: Gens, b: Gens) {
    forall k :: GenOf(a, k) == GenOf(b, k)
  }

  ghost predicate BumpedBy(a: Gens, b: Gens, bumps: seq<NotifyKey>) {
    forall k :: GenOf(b, k) == Wrap(GenOf(a, k), CountKey(bumps, k))
  }

  lemma AdvancedStart(gens: Gens, env: seq<Poll>)
    requires forall k :: k in gens ==> gens[k] < GEN_MODULUS
    ensures Advanced(gens, gens, env, 0)
  {
  }

  lemma AdvancedSame(before: Gens, after: Gens, next: Gens, env: seq<Poll>, polls: nat)
    requires Advanced(before, after, env, polls) && SameGens(after, next)
    ensures Advanced(before, next, env, polls)
  {
  }

  /** The counters after the first `polls` polls. */
  ghost predicate Advanced(before: Gens, after: Gens, env: seq<Poll>, polls: nat) {
    polls <= |env| && forall k :: GenOf(after, k) == Wrap(GenOf(before, k), BumpsOn(env[..polls], k))
  }

  lemma AdvancedNext(before: Gens, after: Gens, next: Gens, env: seq<Poll>, polls: nat)
    requires Advanced(before, after, env, polls) && polls < |env|
    requires BumpedBy(after, next, env[polls].bumps)
    ensures Advanced(before, next, env, polls + 1)
  {
    forall k ensures GenOf(next, k) == Wrap(GenOf(before, k), BumpsOn(env[..polls + 1], k)) {
      BumpsNext(GenOf(before, k), env, polls, k);
    }
  }

  /** The loop after `polls` polls: the counters, and how the rest of the wait ends. */
  ghost predicate Progress(whole: (Option<WaitOutcome>, nat), start: Gens, gens: Gens, key: NotifyKey, since: nat,
                           deadline: int, env: seq<Poll>, polls: nat, recheck: bool)
  {
    Advanced(start, gens, env, polls) && Ongoing(whole, key, GenOf(gens, key), since, deadline, env, polls, recheck)
  }

  lemma ProgressStart(start: Gens, key: NotifyKey, since: nat, deadline: int, env: seq<Poll>)
    requires forall k :: k in start ==> start[k] < GEN_MODULUS
    ensures Progress(WaitOn(key, GenOf(start, key), since, deadline, env, true),
                     start, start, key, since, deadline, env, 0, true)
  {
    AdvancedStart(start, env);
    OngoingStart(key, GenOf(start, key), since, deadline, env);
  }

  /** A look at the counter: the wait may be over here. */
  lemma ProgressLooked(
      whole: (Option<WaitOutcome>, nat), start: Gens, gens: Gens, next: Gens, key: NotifyKey, since: nat, deadline: int,
      env: seq<Poll>, polls: nat, recheck: bool)
    requires Progress(whole, start, gens, key, since, deadline, env, polls, recheck) && SameGens(gens, next)
    ensures Progress(whole, start, next, key, since, deadline, env, polls, recheck)
    ensures recheck && GenOf(gens, key) > since ==> whole == (Some(Woke), polls)
    ensures !(recheck && GenOf(gens, key) > since) && polls == |env| ==> whole == (None, polls)
  {
    AdvancedSame(start, gens, next, env, polls);
    OngoingOver(whole, key, GenOf(gens, key), since, deadline, env, polls, recheck);
  }

  lemma ProgressPolled(
      whole: (Option<WaitOutcome>, nat), start: Gens, gens: Gens, next: Gens, key: NotifyKey, since: nat, deadline: int,
      env: seq<Poll>, polls: nat, recheck: bool)
    requires Progress(whole, start, gens, key, since, deadline, env, polls, recheck) && polls < |env|
    requires !(recheck && GenOf(gens, key) > since) && BumpedBy(gens, next, env[polls].bumps)
    ensures Advanced(start, next, env, polls + 1)
    ensures var p := env[polls];
      if !p.signalled && deadline <= p.at
      then whole == (Some(if GenOf(next, key) > since then Woke else Timeout), polls + 1)
      else Progress(whole, start, next, key, since, deadline, env, polls + 1, p.signalled)
  {
    OngoingLater(whole, key, GenOf(gens, key), since, deadline, env, polls, recheck);
    AdvancedNext(start, gens, next, env, polls);
  }

  class Notifier {
    var slots: Gens

    ghost predicate Valid()
      reads this
    {
      forall k :: k in slots ==> slots[k] < GEN_MODULUS
    }

    ghost function Gen(k: NotifyKey): nat
      reads this
    {
      GenOf(slots, k)
    }

    constructor ()
      ensures Valid() && forall k :: Gen(k) == 0
    {
      slots := map[];
    }

    /** Get or create the slot of a key; no counter changes. */
    method Slot(key: NotifyKey)
      requires Valid()
      modifies this
      ensures Valid() && key in slots
      ensures forall k :: Gen(k) == old(Gen(k))
      ensures SameGens(old(slots), slots)
    {
      if key !in slots {
        slots := slots[key := 0];
      }
    }

    method Snapshot(key: NotifyKey) returns (since: nat)
      requires Valid()
      modifies this
      ensures Valid() && since == old(Gen(key))
      ensures forall k :: Gen(k) == old(Gen(k))
      ensures SameGens(old(slots), slots)
    {
      Slot(key);
      since := slots[key];
    }

    method Notify(key: NotifyKey)
      requires Valid()
      modifies this
      ensures Valid()
      ensures Gen(key) == Wrap(old(Gen(key)), 1)
      ensures forall k :: k != key ==> Gen(k) == old(Gen(k))
    {
      Slot(key);
      slots := slots[key := Wrap(slots[key], 1)];
    }

    method NotifySystem(systemId: string)
      requires Valid()
      modifies this
      ensures Valid()
      ensures Gen(System(systemId)) == Wrap(old(Gen(System(systemId))), 1)
      ensures forall k :: k != System(systemId) ==> Gen(k) == old(Gen(k))
    {
      Notify(System(systemId));
    }

    method NotifyEmail(systemId: string, emailLower: string)
      requires Valid()
      modifies this
      ensures Valid()
      ensures Gen(Email(systemId, emailLower)) == Wrap(old(Gen(Email(systemId, emailLower))), 1)
      ensures forall k :: k != Email(systemId, emailLower) ==> Gen(k) == old(Gen(k))
    {
      Notify(Email(systemId, emailLower));
    }

    /** The other tasks' notifications during one suspension. */
    method Interfere(bumps: seq<NotifyKey>)
      requires Valid()
      modifies this
      ensures Valid()
      ensures forall k :: Gen(k) == Wrap(old(Gen(k)), CountKey(bumps, k))
    {
      for i := 0 to |bumps|
        invariant Valid()
        invariant forall k :: Gen(k) == Wrap(old(Gen(k)), CountKey(bumps[..i], k))
      {
        assert bumps[..i + 1] == bumps[..i] + [bumps[i]];
        Notify(bumps[i]);
        WrapAdd(old(Gen(bumps[i])), CountKey(bumps[..i], bumps[i]), 1);
      }
      assert bumps[..|bumps|] == bumps;
    }

    /** The look at the top of the loop. */
    method Look(key: NotifyKey, since: nat, recheck: bool) returns (above: bool)
      requires Valid()
      modifies this
      ensures Valid() && SameGens(old(slots), slots)
      ensures above == (recheck && GenOf(old(slots), key) > since)
    {
      if !recheck {
        return false;
      }
      var current := Snapshot(key);
      return current > since;
    }

    /** One suspension: the other tasks go on, and at the deadline the counter is looked at once more. */
    method Suspend(key: NotifyKey, since: nat, deadline: int, p: Poll) returns (outcome: Option<WaitOutcome>)
      requires Valid()
      modifies this
      ensures Valid() && BumpedBy(old(slots), slots, p.bumps)
      ensures outcome ==
        if !p.signalled && deadline <= p.at then Some(if GenOf(slots, key) > since then Woke else Timeout) else None
    {
      Interfere(p.bumps);
      if p.signalled || p.at < deadline {
        return None;
      }
      var current := Snapshot(key);
      return Some(if current > since then Woke else Timeout);
    }

    /**
     Wait until the counter exceeds `since`, for at most `timeout` after `start`.  `env` is any
     behaviour of the other tasks and of the timer; when it is used up the waiter is still
     suspended (or was dropped) and there is no outcome.
     */
    method WaitSince(key: NotifyKey, since: nat, timeout: nat, start: int, env: seq<Poll>)
      returns (outcome: Option<WaitOutcome>, polls: nat)
      requires Valid()
      modifies this
      ensures Valid() && Advanced(old(slots), slots, env, polls)
      ensures (outcome, polls) == WaitOn(key, GenOf(old(slots), key), since, start + timeout, env, true)
    {
      var deadline := start + timeout;
      ghost var before := slots;
      ghost var whole := WaitOn(key, GenOf(slots, key), since, deadline, env, true);
      ProgressStart(slots, key, since, deadline, env);
      var recheck := true;
      polls := 0;
      while true
        invariant Valid() && polls <= |env|
        invariant Progress(whole, before, slots, key, since, deadline, env, polls, recheck)
        decreases |env| - polls
      {
        ghost var gens := slots;
        var above := Look(key, since, recheck);
        ProgressLooked(whole, before, gens, slots, key, since, deadline, env, polls, recheck);
        if above {
          return Some(Woke), polls;
        }
        if polls == |env| {
          return None, polls;
        }
        gens := slots;
        outcome := Suspend(key, since, deadline, env[polls]);
        ProgressPolled(whole, before, gens, slots, key, since, deadline, env, polls, recheck);
        recheck := env[polls].signalled;
        polls := polls + 1;
        if outcome.Some? {
          return;
        }
      }
    }
  }

  /** After `n < 2^64` further bumps the comparison sees them exactly when the counter did not wrap. */
  lemma ComparisonSeesBumpsIff(before: nat, n: nat)
    requires 0 < n < GEN_MODULUS
    ensures Wrap(before, n) > Wrap(before, 0) <==> before % GEN_MODULUS + n < GEN_MODULUS
  {
  }
}
