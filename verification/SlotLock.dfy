/**
 The single-slot mailbox lock: at most one client holds a key's mailbox, under a
 lease while it is active and under a grace window after it released.

 The lock is a class, as in the gateway; its two operations are specified by the
 functions `Acquire` and `Release` on the slot table.  Runs are finite sequences of
 timed calls; the theorems speak only of calls and instants, never of the table.
 */
module SlotLock {
  import opened Options

  const SLOT_GRACE: nat := 60

  datatype SlotHolder = SlotHolder(clientId: string, expiresAt: int, graceUntil: Option<int>)

  type Slots = map<int, SlotHolder>

  /** Is a request by `client` at instant `now` granted? */
  predicate Grants(slots: Slots, keyId: int, client: string, now: int) {
    keyId !in slots ||
    var h := slots[keyId];
    || h.clientId == client
    || (if h.graceUntil.Some? then h.graceUntil.value else h.expiresAt) <= now
  }

  /** The slot table after a request: a refresh by an active holder never shortens its deadline. */
  function Acquire(slots: Slots, keyId: int, client: string, lease: nat, now: int): Slots {
    if !Grants(slots, keyId, client, now) then slots
    else if keyId in slots && slots[keyId].graceUntil.None? && slots[keyId].clientId == client
         && now + lease <= slots[keyId].expiresAt then slots
    else slots[keyId := SlotHolder(client, now + lease, None)]
  }

  /** Does a release by `client` take effect?  Only on a slot it actively holds. */
  predicate Frees(slots: Slots, keyId: int, client: string) {
    keyId in slots && slots[keyId].clientId == client && slots[keyId].graceUntil.None?
  }

  function Release(slots: Slots, keyId: int, client: string, grace: nat, now: int): Slots {
    if Frees(slots, keyId, client)
    then slots[keyId := slots[keyId].(graceUntil := Some(now + grace))]
    else slots
  }

  class SingleSlotLock {
    var slots: Slots

    constructor ()
      ensures slots == map[]
    {
      slots := map[];
    }

    method TryAcquire(keyId: int, clientId: string, lease: nat, now: int) returns (ok: bool)
      modifies this
      ensures ok == Grants(old(slots), keyId, clientId, now)
      ensures slots == Acquire(old(slots), keyId, clientId, lease, now)
      ensures !ok ==> slots == old(slots)
    {
      var deadline := now + lease;
      var claim := SlotHolder(clientId, deadline, None);
      if keyId !in slots {
        slots := slots[keyId := claim];
        return true;
      }
      var h := slots[keyId];
      if h.graceUntil.None? {
        if h.clientId == clientId {
          if deadline > h.expiresAt {
            slots := slots[keyId := h.(expiresAt := deadline)];
          }
          return true;
        } else if h.expiresAt <= now {
          slots := slots[keyId := claim];
          return true;
        } else {
          return false;
        }
      } else {
        var graceOver := h.graceUntil.value <= now;
        if h.clientId == clientId || graceOver {
          slots := slots[keyId := claim];
          return true;
        } else {
          return false;
        }
      }
    }

    method ReleaseSlot(keyId: int, clientId: string, grace: nat, now: int)
      modifies this
      ensures slots == Release(old(slots), keyId, clientId, grace, now)
    {
      if keyId in slots {
        var h := slots[keyId];
        if h.clientId == clientId && h.graceUntil.None? {
          slots := slots[keyId := h.(graceUntil := Some(now + grace))];
        }
      }
    }

    method HolderId(keyId: int) returns (r: Option<string>)
      ensures r.Some? <==> keyId in slots
      ensures r.Some? ==> r.value == slots[keyId].clientId
    {
      if keyId in slots {
        r := Some(slots[keyId].clientId);
      } else {
        r := None;
      }
    }
  }

  /** The guard of a live stream: releases with the grace on a rotation, with none on drop. */
  class SlotGuard {
    const lock: SingleSlotLock
    const keyId: int
    const clientId: string

    constructor (lock: SingleSlotLock, keyId: int, clientId: string)
      ensures this.lock == lock && this.keyId == keyId && this.clientId == clientId
    {
      this.lock := lock;
      this.keyId := keyId;
      this.clientId := clientId;
    }

    method ReleaseOnRotation(now: int)
      modifies lock
      ensures lock.slots == Release(old(lock.slots), keyId, clientId, 60, now)
    {
      lock.ReleaseSlot(keyId, clientId, SLOT_GRACE, now);
    }

    method Drop(now: int)
      modifies lock
      ensures lock.slots == Release(old(lock.slots), keyId, clientId, 0, now)
    {
      lock.ReleaseSlot(keyId, clientId, 0, now);
    }

    /** The end of a rotated stream: the drop that follows keeps the rotation's grace. */
    method RotateAndDrop(now: int, later: int)
      modifies lock
      ensures lock.slots == Release(old(lock.slots), keyId, clientId, 60, now)
    {
      ReleaseOnRotation(now);
      Drop(later);
    }
  }

  // ── Runs ──────────────────────────────────────────────────────────────

  datatype Call =
    | Request(keyId: int, client: string, lease: nat, at: int)
    | Relinquish(keyId: int, client: string, grace: nat, at: int)

  /** The slot table after the first `n` calls of a run. */
  function After(es: seq<Call>, n: nat): Slots
    requires n <= |es|
  {
    if n == 0 then map[]
    else
      var s := After(es, n - 1);
      match es[n - 1]
      case Request(k, c, lease, at) => Acquire(s, k, c, lease, at)
      case Relinquish(k, c, grace, at) => Release(s, k, c, grace, at)
  }

  predicate Timed(es: seq<Call>) {
    forall i, j :: 0 <= i <= j < |es| ==> es[i].at <= es[j].at
  }

  /** Call `i` is a request and was answered "yours". */
  predicate Granted(es: seq<Call>, i: nat)
    requires i < |es|
  {
    es[i].Request? && Grants(After(es, i), es[i].keyId, es[i].client, es[i].at)
  }

  /** Call `i` is a release that took effect. */
  predicate Freed(es: seq<Call>, i: nat)
    requires i < |es|
  {
    es[i].Relinquish? && Frees(After(es, i), es[i].keyId, es[i].client)
  }

  /** Grant `i` is still standing before call `n`: no release took effect since, and no other client got the slot. */
  predicate Live(es: seq<Call>, i: int, n: nat, k: int)
    requires n <= |es|
  {
    && 0 <= i < n && es[i].keyId == k && Granted(es, i)
    && forall j :: i < j < n && es[j].keyId == k ==>
         !Freed(es, j) && (Granted(es, j) ==> es[j].client == es[i].client)
  }

  /** Release `r` reserves the slot before call `n`: it took effect and nothing was granted since. */
  predicate Reserved(es: seq<Call>, r: int, n: nat, k: int)
    requires n <= |es|
  {
    && 0 <= r < n && es[r].keyId == k && Freed(es, r)
    && forall j :: r < j < n && es[j].keyId == k ==> !Granted(es, j)
  }

  /** What the slot table remembers of the calls before `n`, for one key. */
  ghost predicate Remembers(es: seq<Call>, n: nat, k: int)
    requires n <= |es|
  {
    var s := After(es, n);
    if k !in s then
      forall i :: 0 <= i < n && es[i].keyId == k ==> !Granted(es, i) && !Freed(es, i)
    else if s[k].graceUntil.None? then
      && (forall i :: Live(es, i, n, k) ==> es[i].client == s[k].clientId && es[i].at + es[i].lease <= s[k].expiresAt)
      && (exists i :: Live(es, i, n, k) && es[i].at + es[i].lease == s[k].expiresAt)
      && (forall r :: !Reserved(es, r, n, k))
    else
      && (forall i :: !Live(es, i, n, k))
      && (forall r :: Reserved(es, r, n, k) ==>
            es[r].client == s[k].clientId && es[r].at + es[r].grace == s[k].graceUntil.value)
      && (exists r :: Reserved(es, r, n, k))
  }

  lemma LiveStep(es: seq<Call>, i: int, n: nat, k: int)
    requires 0 < n <= |es|
    ensures Live(es, i, n, k) <==>
      var e := es[n - 1];
      if e.keyId != k then Live(es, i, n - 1, k)
      else if i == n - 1 then Granted(es, n - 1)
      else Live(es, i, n - 1, k) && !Freed(es, n - 1) && (Granted(es, n - 1) ==> e.client == es[i].client)
  {
  }

  lemma ReservedStep(es: seq<Call>, r: int, n: nat, k: int)
    requires 0 < n <= |es|
    ensures Reserved(es, r, n, k) <==>
      if es[n - 1].keyId != k then Reserved(es, r, n - 1, k)
      else if r == n - 1 then Freed(es, n - 1)
      else Reserved(es, r, n - 1, k) && !Granted(es, n - 1)
  {
  }

  /** Calls that change nothing for key `k`: another key's, refused requests, idle releases. */
  lemma RemembersIdle(es: seq<Call>, n: nat, k: int)
    requires 0 < n <= |es| && Remembers(es, n - 1, k)
    requires es[n - 1].keyId == k ==> !Granted(es, n - 1) && !Freed(es, n - 1)
    ensures Remembers(es, n, k)
  {
    forall i { LiveStep(es, i, n, k); }
    forall r { ReservedStep(es, r, n, k); }
    assert k in After(es, n) <==> k in After(es, n - 1);
    assert k in After(es, n) ==> After(es, n)[k] == After(es, n - 1)[k];
    var m: nat := n - 1;
    if r :| Reserved(es, r, m, k) {
      assert Reserved(es, r, n, k);
    }
  }

  lemma RemembersGrant(es: seq<Call>, n: nat, k: int)
    requires 0 < n <= |es| && Remembers(es, n - 1, k)
    requires es[n - 1].keyId == k && Granted(es, n - 1)
    ensures Remembers(es, n, k)
  {
  }

  lemma RemembersRelease(es: seq<Call>, n: nat, k: int)
    requires 0 < n <= |es| && Remembers(es, n - 1, k)
    requires es[n - 1].keyId == k && Freed(es, n - 1)
    ensures Remembers(es, n, k)
  {
    forall i { LiveStep(es, i, n, k); }
    forall r { ReservedStep(es, r, n, k); }
    assert Reserved(es, n - 1, n, k);
  }

  lemma {:induction false} TableRemembersRun(es: seq<Call>, n: nat, k: int)
    requires n <= |es|
    ensures Remembers(es, n, k)
  {
    if n == 0 {
    } else {
      TableRemembersRun(es, n - 1, k);
      if es[n - 1].keyId == k && Granted(es, n - 1) {
        RemembersGrant(es, n, k);
      } else if es[n - 1].keyId == k && Freed(es, n - 1) {
        RemembersRelease(es, n, k);
      } else {
        RemembersIdle(es, n, k);
      }
    }
  }

  /**
   Exactly when a request is granted, over every run: every standing grant to another
   client has run out, and so has the grace of every standing release by another client.
   */
  lemma GrantedIff(es: seq<Call>, j: nat)
    requires j < |es| && es[j].Request?
    ensures Granted(es, j) <==>
      && (forall i :: Live(es, i, j, es[j].keyId) && es[i].client != es[j].client ==>
            es[i].at + es[i].lease <= es[j].at)
      && (forall r :: Reserved(es, r, j, es[j].keyId) && es[r].client != es[j].client ==>
            es[r].at + es[r].grace <= es[j].at)
  {
    TableRemembersRun(es, j, es[j].keyId);
  }

  /** Mutual exclusion in time: unless the first client released, its lease is over when another client is let in. */
  lemma LeasesExclude(es: seq<Call>, i: nat, j: nat)
    requires Timed(es) && i < j < |es|
    requires Granted(es, i) && Granted(es, j)
    requires es[i].keyId == es[j].keyId && es[i].client != es[j].client
    requires forall r :: i < r < j && es[r].keyId == es[i].keyId && es[r].client == es[i].client ==> !Freed(es, r)
    ensures es[i].at + es[i].lease <= es[j].at
  {
    var k := es[i].keyId;
    var m := FirstOtherGrant(es, i, j);
    forall r | i < r < m && es[r].keyId == k ensures !Freed(es, r) {
      HolderOf(es, i, r);
    }
    assert Live(es, i, m, k);
    GrantedIff(es, m);
  }

  /** The first call after grant `i` that hands the slot to another client. */
  lemma FirstOtherGrant(es: seq<Call>, i: nat, j: nat) returns (m: nat)
    requires i < j < |es| && Granted(es, i) && Granted(es, j)
    requires es[i].keyId == es[j].keyId && es[i].client != es[j].client
    ensures i < m <= j && Granted(es, m) && es[m].keyId == es[i].keyId && es[m].client != es[i].client
    ensures forall x :: i < x < m && es[x].keyId == es[i].keyId && Granted(es, x) ==> es[x].client == es[i].client
  {
    m := i + 1;
    while !(Granted(es, m) && es[m].keyId == es[i].keyId && es[m].client != es[i].client)
      invariant i < m <= j
      invariant forall x :: i < x < m && es[x].keyId == es[i].keyId && Granted(es, x) ==> es[x].client == es[i].client
      decreases j - m
    {
      m := m + 1;
    }
  }

  /** Until another client is let in, the slot stays in the name of the client of grant `i`. */
  lemma {:induction false} HolderOf(es: seq<Call>, i: nat, n: nat)
    requires i < n <= |es| && Granted(es, i)
    requires forall x :: i < x < n && es[x].keyId == es[i].keyId && Granted(es, x) ==> es[x].client == es[i].client
    ensures es[i].keyId in After(es, n) && After(es, n)[es[i].keyId].clientId == es[i].client
  {
    if n == i + 1 {
    } else {
      HolderOf(es, i, n - 1);
    }
  }

  /** The grace window: until its client returns, a release keeps every other client out for the whole grace. */
  lemma GraceExcludes(es: seq<Call>, r: nat, j: nat)
    requires Timed(es) && r < j < |es|
    requires Freed(es, r) && Granted(es, j)
    requires es[r].keyId == es[j].keyId && es[r].client != es[j].client
    requires forall i :: r < i < j && es[i].keyId == es[r].keyId && es[i].client == es[r].client ==> !Granted(es, i)
    ensures es[r].at + es[r].grace <= es[j].at
  {
    var k := es[r].keyId;
    var m := r + 1;
    while !(Granted(es, m) && es[m].keyId == k)
      invariant r < m <= j
      invariant forall x :: r < x < m && es[x].keyId == k ==> !Granted(es, x)
      decreases j - m
    {
      m := m + 1;
    }
    assert Reserved(es, r, m, k);
    GrantedIff(es, m);
  }

  /** A slot can always be taken over: at or after the recorded deadline every client's request is granted. */
  lemma DeadlineFreesSlot(es: seq<Call>, j: nat)
    requires j < |es| && es[j].Request?
    requires forall i :: 0 <= i < j && es[i].keyId == es[j].keyId ==>
      es[i].at + (if es[i].Request? then es[i].lease else es[i].grace) <= es[j].at
    ensures Granted(es, j)
  {
    GrantedIff(es, j);
  }

  /** Grant `i` is the latest on key `k` before call `n`. */
  predicate LatestGrant(es: seq<Call>, i: int, n: nat, k: int)
    requires n <= |es|
  {
    0 <= i < n && es[i].keyId == k && Granted(es, i) && forall j :: i < j < n && es[j].keyId == k ==> !Granted(es, j)
  }

  /** A slot is named exactly when some request for it was granted, and then after the latest one. */
  lemma HolderIff(es: seq<Call>, n: nat, k: int)
    requires n <= |es|
    ensures k in After(es, n) <==> exists i :: 0 <= i < n && es[i].keyId == k && Granted(es, i)
    ensures forall i :: LatestGrant(es, i, n, k) ==> k in After(es, n) && After(es, n)[k].clientId == es[i].client
  {
    TableRemembersRun(es, n, k);
    forall i | LatestGrant(es, i, n, k)
      ensures k in After(es, n) && After(es, n)[k].clientId == es[i].client
    {
      HolderOf(es, i, n);
    }
    if k in After(es, n) {
      NamedWasGranted(es, n, k);
    }
  }

  lemma {:induction false} NamedWasGranted(es: seq<Call>, n: nat, k: int)
    requires n <= |es| && k in After(es, n)
    ensures exists i :: 0 <= i < n && es[i].keyId == k && Granted(es, i)
  {
    if k in After(es, n - 1) {
      NamedWasGranted(es, n - 1, k);
    } else {
      assert es[n - 1].keyId == k && Granted(es, n - 1);
    }
  }

  // ── Whose claim a release ends ────────────────────────────────────────

  /** Grant `i` stands before call `r` and no longer after it. */
  predicate Ends(es: seq<Call>, r: nat, i: int)
    requires r < |es|
  {
    Live(es, i, r, es[r].keyId) && !Live(es, i, r + 1, es[r].keyId)
  }

  /** A release takes effect, and changes the table at all, exactly when a grant to its client stands. */
  lemma FreedIff(es: seq<Call>, r: nat)
    requires r < |es| && es[r].Relinquish?
    ensures Freed(es, r) <==> exists i :: Live(es, i, r, es[r].keyId) && es[i].client == es[r].client
    ensures Freed(es, r) <==> After(es, r + 1) != After(es, r)
  {
    TableRemembersRun(es, r, es[r].keyId);
    if Freed(es, r) {
      assert After(es, r + 1)[es[r].keyId].graceUntil.Some?;
    }
  }

  /** The grants a release ends are exactly the standing ones of its client. */
  lemma EndsIff(es: seq<Call>, r: nat, i: int)
    requires r < |es| && es[r].Relinquish?
    ensures Ends(es, r, i) <==> Live(es, i, r, es[r].keyId) && es[i].client == es[r].client
  {
    FreedIff(es, r);
    LiveStep(es, i, r + 1, es[r].keyId);
    TableRemembersRun(es, r, es[r].keyId);
  }

  /**
   The guard of the stream granted at `g` is dropped at `r`.  It leaves the claims of all other streams
   alone exactly when every other request that its client was granted on that key has been followed
   by an effective release or by another client's grant.
   */
  lemma DropEndsOnlyOwnIff(es: seq<Call>, g: nat, r: nat)
    requires g < r < |es| && es[r].Relinquish? && Granted(es, g)
    requires es[g].keyId == es[r].keyId && es[g].client == es[r].client
    ensures (forall i :: Ends(es, r, i) ==> i == g) <==>
      forall i ::
        0 <= i < r && i != g && es[i].keyId == es[r].keyId && es[i].client == es[r].client && Granted(es, i) ==>
        exists j :: i < j < r && es[j].keyId == es[r].keyId
          && (Freed(es, j) || (Granted(es, j) && es[j].client != es[i].client))
  {
    forall i ensures Ends(es, r, i) <==> Live(es, i, r, es[r].keyId) && es[i].client == es[r].client {
      EndsIff(es, r, i);
    }
  }

  /**
   A second release by the same client takes effect exactly when a request it was granted since the
   first still stands; without such a request the first grace is kept, whatever calls came between.
   */
  lemma SecondReleaseIff(es: seq<Call>, r: nat, q: nat)
    requires r < q < |es| && Freed(es, r) && es[q].Relinquish?
    requires es[q].keyId == es[r].keyId && es[q].client == es[r].client
    ensures After(es, q + 1) != After(es, q) <==>
      exists i :: r < i && Live(es, i, q, es[q].keyId) && es[i].client == es[q].client
    ensures (forall i :: r < i < q && es[i].keyId == es[q].keyId && es[i].client == es[q].client ==> !Granted(es, i))
      ==> After(es, q + 1) == After(es, q)
  {
    FreedIff(es, q);
  }

  /**
   The hazard behind identifying a holder by client id alone: the drop of a stream's guard after
   the same client has reconnected ends the new stream's claim, and a stranger gets in at once,
   599 seconds before the new lease ends.
   */
  lemma LateDropFreesNewStream()
    ensures var es := [Request(1, "a", 600, 0), Request(1, "a", 600, 10),
                       Relinquish(1, "a", 0, 11), Request(1, "b", 120, 11)];
            && Timed(es) && Granted(es, 1) && Freed(es, 2) && Granted(es, 3)
            && es[3].client != es[1].client && es[3].at < es[1].at + es[1].lease
  {
  }
}
