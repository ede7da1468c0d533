/**
 A task waiting in Todo can be released by completing its parents exactly when each of them names
 another task of the board.  Parent references are not checked when a task is created.
 */
module BoardRelease {
  import opened Options
  import opened BoardModel
  import opened BoardSpec
  import opened BoardRuns
  import opened BoardReadiness

  /** Nothing but completions and approvals of other tasks. */
  predicate Completions(cs: seq<Command>, t: Task) {
    forall c :: c in cs ==>
      c.OnTask? && (c.verb.Complete? || c.verb.Approve?) && c.ref != t.id && c.ref != t.shortId
  }

  /** The short ids of the other rows. */
  function Others(tasks: Tasks, id: string): set<string> {
    set x | x in tasks && x != id :: tasks[x].shortId
  }

  /** Every parent reference names another row. */
  predicate ParentsExist(tasks: Tasks, id: string)
    requires id in tasks
  {
    ParentsIn(tasks[id], Others(tasks, id))
  }

  lemma DoneAreOthers(tasks: Tasks, id: string)
    requires id in tasks && tasks[id].status != Done
    ensures DoneIds(tasks) <= Others(tasks, id)
  {
  }

  /** Completing another task keeps the other rows' short ids, what is done, and this row up to promotion. */
  ghost predicate Keeps(a: Tasks, b: Tasks, id: string) {
    && id in a && id in b && Others(a, id) == Others(b, id) && DoneIds(a) <= DoneIds(b)
    && (b[id] == a[id] || b[id] == a[id].(status := Ready))
  }

  // ── Joining runs ──────────────────────────────────────────────────────

  lemma {:induction false} AfterPrefix(db: Db, cs: seq<Command>, ds: seq<Command>, n: nat)
    requires |db.boardId| >= 8 && n <= |cs|
    ensures After(db, cs + ds, n) == After(db, cs, n)
  {
    if n == 0 {
    } else {
      AfterPrefix(db, cs, ds, n - 1);
      assert (cs + ds)[n - 1] == cs[n - 1];
    }
  }

  lemma {:induction false} AfterConcat(db: Db, cs: seq<Command>, ds: seq<Command>, n: nat)
    requires |db.boardId| >= 8 && n <= |ds|
    ensures After(db, cs + ds, |cs| + n) == After(After(db, cs, |cs|), ds, n)
  {
    if n == 0 {
      AfterPrefix(db, cs, ds, |cs|);
    } else {
      AfterConcat(db, cs, ds, n - 1);
      assert (cs + ds)[|cs| + n - 1] == ds[n - 1];
    }
  }

  /** These completions and approvals of tasks other than `t` lead from one state to the other. */
  ghost predicate LeadsBy(db: Db, cs: seq<Command>, s: Db, t: Task)
    requires |db.boardId| >= 8
  {
    Completions(cs, t) && After(db, cs, |cs|) == s
  }

  ghost predicate Leads(db: Db, s: Db, t: Task)
    requires |db.boardId| >= 8
  {
    exists cs :: LeadsBy(db, cs, s, t)
  }

  lemma LeadsInv(db: Db, s: Db, t: Task)
    requires Inv(db) && Leads(db, s, t)
    ensures Inv(s)
  {
    var cs :| LeadsBy(db, cs, s, t);
    InvKept(db, cs, |cs|);
  }

  lemma AfterBoth(db: Db, cs: seq<Command>, ds: seq<Command>)
    requires |db.boardId| >= 8
    ensures After(db, cs + ds, |cs + ds|) == After(After(db, cs, |cs|), ds, |ds|)
  {
    AfterConcat(db, cs, ds, |ds|);
  }

  lemma LeadsTransitive(db: Db, s: Db, r: Db, t: Task, u: Task)
    requires |db.boardId| >= 8 && |s.boardId| >= 8 && Leads(db, s, t) && Leads(s, r, u)
    requires t.id == u.id && t.shortId == u.shortId
    ensures Leads(db, r, t)
  {
    var cs :| LeadsBy(db, cs, s, t);
    var ds :| LeadsBy(s, ds, r, u);
    assert LeadsBy(db, cs + ds, r, t) by {
      AfterBoth(db, cs, ds);
    }
  }

  lemma LeadsOne(db: Db, c: Command, t: Task)
    requires |db.boardId| >= 8 && Completions([c], t)
    ensures Leads(db, Step(db, c).0, t)
  {
    assert After(db, [c], 0) == db;
    assert LeadsBy(db, [c], Step(db, c).0, t);
  }

  lemma LeadsNowhere(db: Db, t: Task)
    requires |db.boardId| >= 8
    ensures Leads(db, db, t)
  {
    assert LeadsBy(db, [], db, t);
  }

  // ── Completing one parent ─────────────────────────────────────────────

  lemma OthersAfter(tasks: Tasks, t: Task, t': Task, promotes: bool, id: string)
    requires t.id in tasks && tasks[t.id] == t && t'.id == t.id && t'.shortId == t.shortId && id in tasks && id != t.id
    ensures var f := Write(tasks, t', promotes);
      && id in f && Others(f, id) == Others(tasks, id)
      && (f[id] == tasks[id] || (tasks[id].status == Todo && f[id] == tasks[id].(status := Ready)))
  {
    var f := Write(tasks, t', promotes);
    assert f.Keys == tasks.Keys;
    forall x | x in tasks ensures f[x].shortId == tasks[x].shortId {}
    forall s ensures s in Others(f, id) <==> s in Others(tasks, id) {
      if s in Others(tasks, id) {
        var x :| x in tasks && x != id && tasks[x].shortId == s;
        assert f[x].shortId == s;
      }
    }
  }

  /** An accepted command that finishes another task, or does not take it out of Done. */
  lemma WriteKeeps(db: Db, t: Task, t': Task, promotes: bool, id: string)
    requires Inv(db) && t.id in db.tasks && db.tasks[t.id] == t && Rewrites(t, t', promotes, db.members)
    requires id in db.tasks && id != t.id && t.status != Done
    ensures Keeps(db.tasks, Write(db.tasks, t', promotes), id)
    ensures t'.status == Done ==> t.shortId in DoneIds(Write(db.tasks, t', promotes))
  {
    OthersAfter(db.tasks, t, t', promotes, id);
    DoneIdsAfter(db, t, t', promotes);
  }

  /** The accepted command, and the row it writes. */
  lemma Accepted(db: Db, other: string, v: RowVerb)
    requires Inv(db) && other in db.tasks && !Malformed(v) && Transition(db.tasks[other], v, true, db.members, 0).Ok?
    ensures var t' := Transition(db.tasks[other], v, true, db.members, 0).value;
      && Step(db, OnTask(other, v, true, 0)).0 == db.(tasks := Write(db.tasks, t', Promotes(v, t')))
      && Rewrites(db.tasks[other], t', Promotes(v, t'), db.members) && db.tasks[other].id == other
  {
    BothReferencesResolve(db, other);
    assert RowOk(db, other);
    TransitionRewrites(db.tasks[other], v, true, db.members, 0);
  }

  lemma CompleteRow(db: Db, other: string, id: string)
    requires Inv(db) && other in db.tasks && id in db.tasks && other != id && db.tasks[other].status != Done
    ensures var t := db.tasks[other];
      var s := Step(db, OnTask(other, Complete(t.assignee, None), true, 0)).0;
      && Keeps(db.tasks, s.tasks, id)
      && (t.reviewer.None? ==> t.shortId in DoneIds(s.tasks))
      && (t.reviewer.Some? ==> other in s.tasks && s.tasks[other] == t.(status := Reviewing, updatedAt := 0))
  {
    var t := db.tasks[other];
    var v := Complete(t.assignee, None);
    Accepted(db, other, v);
    var t' := Transition(t, v, true, db.members, 0).value;
    WriteKeeps(db, t, t', Promotes(v, t'), id);
  }

  lemma ApproveRow(db: Db, other: string, id: string)
    requires Inv(db) && other in db.tasks && id in db.tasks && other != id
    requires db.tasks[other].status == Reviewing && db.tasks[other].reviewer.Some?
    ensures var t := db.tasks[other];
      var s := Step(db, OnTask(other, Approve(t.reviewer.value), true, 0)).0;
      Keeps(db.tasks, s.tasks, id) && t.shortId in DoneIds(s.tasks)
  {
    var t := db.tasks[other];
    var v := Approve(t.reviewer.value);
    Accepted(db, other, v);
    var t' := Transition(t, v, true, db.members, 0).value;
    WriteKeeps(db, t, t', Promotes(v, t'), id);
  }

  lemma NamesOther(db: Db, other: string, id: string)
    requires Inv(db) && other in db.tasks && id in db.tasks && other != id
    ensures other != db.tasks[id].id && other != db.tasks[id].shortId
  {
    assert RowOk(db, id);
    BothReferencesResolve(db, id);
  }

  lemma FinishReviewed(db: Db, other: string, id: string) returns (s: Db)
    requires Inv(db) && other in db.tasks && id in db.tasks && other != id
    requires db.tasks[other].status != Done && db.tasks[other].reviewer.Some?
    ensures Leads(db, s, db.tasks[id]) && Keeps(db.tasks, s.tasks, id) && db.tasks[other].shortId in DoneIds(s.tasks)
  {
    var t, u := db.tasks[other], db.tasks[id];
    var complete := OnTask(other, Complete(t.assignee, None), true, 0);
    var approve := OnTask(other, Approve(t.reviewer.value), true, 0);
    NamesOther(db, other, id);
    LeadsOne(db, complete, u);
    CompleteRow(db, other, id);
    var s1 := Step(db, complete).0;
    LeadsInv(db, s1, u);
    ApproveRow(s1, other, id);
    LeadsOne(s1, approve, u);
    s := Step(s1, approve).0;
    LeadsTransitive(db, s1, s, u, u);
  }

  lemma FinishOther(db: Db, other: string, id: string) returns (s: Db)
    requires Inv(db) && other in db.tasks && id in db.tasks && other != id
    ensures Leads(db, s, db.tasks[id]) && Keeps(db.tasks, s.tasks, id) && db.tasks[other].shortId in DoneIds(s.tasks)
  {
    var t := db.tasks[other];
    if t.status == Done {
      LeadsNowhere(db, db.tasks[id]);
      s := db;
    } else if t.reviewer.None? {
      var complete := OnTask(other, Complete(t.assignee, None), true, 0);
      NamesOther(db, other, id);
      LeadsOne(db, complete, db.tasks[id]);
      CompleteRow(db, other, id);
      s := Step(db, complete).0;
    } else {
      s := FinishReviewed(db, other, id);
    }
  }

  // ── Completing them all ───────────────────────────────────────────────

  lemma FinishNext(db: Db, s: Db, id: string, p: string) returns (r: Db)
    requires Inv(db) && id in db.tasks && Leads(db, s, db.tasks[id]) && Keeps(db.tasks, s.tasks, id)
    requires ParentsExist(db.tasks, id) && p in db.tasks[id].parentIds
    ensures Leads(db, r, db.tasks[id]) && Keeps(db.tasks, r.tasks, id)
    ensures p in DoneIds(r.tasks) && DoneIds(s.tasks) <= DoneIds(r.tasks)
  {
    assert p in Others(s.tasks, id);
    var other :| other in s.tasks && other != id && s.tasks[other].shortId == p;
    LeadsInv(db, s, db.tasks[id]);
    r := FinishOther(s, other, id);
    LeadsTransitive(db, s, r, db.tasks[id], s.tasks[id]);
  }

  /** The first `m` references are in the set. */
  predicate UpTo(parents: seq<string>, m: nat, done: set<string>)
    requires m <= |parents|
  {
    forall i :: 0 <= i < m ==> parents[i] in done
  }

  /** A state on the way: reached by completions, with the first `m` parents done. */
  ghost predicate Progress(db: Db, s: Db, id: string, m: nat)
    requires |db.boardId| >= 8 && id in db.tasks && m <= |db.tasks[id].parentIds|
  {
    Leads(db, s, db.tasks[id]) && Keeps(db.tasks, s.tasks, id) && UpTo(db.tasks[id].parentIds, m, DoneIds(s.tasks))
  }

  lemma ProgressStep(db: Db, s: Db, id: string, m: nat) returns (r: Db)
    requires Inv(db) && id in db.tasks && ParentsExist(db.tasks, id) && m < |db.tasks[id].parentIds|
    requires Progress(db, s, id, m)
    ensures Progress(db, r, id, m + 1)
  {
    r := FinishNext(db, s, id, db.tasks[id].parentIds[m]);
  }

  lemma FinishParents(db: Db, id: string) returns (s: Db)
    requires Inv(db) && id in db.tasks && ParentsExist(db.tasks, id)
    ensures Progress(db, s, id, |db.tasks[id].parentIds|)
  {
    LeadsNowhere(db, db.tasks[id]);
    s := db;
    for m := 0 to |db.tasks[id].parentIds|
      invariant Progress(db, s, id, m)
    {
      s := ProgressStep(db, s, id, m);
    }
  }

  // ── And nothing else helps ────────────────────────────────────────────

  /** Completing other tasks adds no rows, and a task promoted meanwhile has all its parents among them. */
  ghost predicate OnlyPromoted(a: Tasks, b: Tasks, id: string) {
    && id in a && id in b && Others(a, id) == Others(b, id)
    && b[id].id == a[id].id && b[id].shortId == a[id].shortId && b[id].parentIds == a[id].parentIds
    && (b[id].status == Todo || (b[id].status == Ready && ParentsExist(a, id)))
  }

  lemma WritePromotes(a: Tasks, b: Tasks, t: Task, t': Task, promotes: bool, id: string)
    requires OnlyPromoted(a, b, id) && t.id in b && b[t.id] == t && id != t.id
    requires t'.id == t.id && t'.shortId == t.shortId
    ensures OnlyPromoted(a, Write(b, t', promotes), id)
  {
    OthersAfter(b, t, t', promotes, id);
    var w := b[t'.id := t'];
    if Write(b, t', promotes)[id] != b[id] {
      assert ParentsIn(w[id], DoneIds(w)) && w[id] == b[id];
      OthersAfter(b, t, t', false, id);
      DoneAreOthers(w, id);
    }
  }

  lemma FoundIsOther(s: Db, ref: string, id: string)
    requires Inv(s) && id in s.tasks && ref != s.tasks[id].id && ref != s.tasks[id].shortId && Find(s.tasks, ref).Some?
    ensures var t := Find(s.tasks, ref).value; t.id in s.tasks && s.tasks[t.id] == t && t.id != id
  {
    FoundIsStored(s, ref);
    assert RowOk(s, id);
  }

  lemma StepPromotes(a: Tasks, s: Db, c: Command, id: string)
    requires Inv(s) && OnlyPromoted(a, s.tasks, id) && Completions([c], a[id])
    ensures OnlyPromoted(a, Step(s, c).0.tasks, id)
  {
    assert c in [c];
    if Find(s.tasks, c.ref).Some? {
      var t := Find(s.tasks, c.ref).value;
      FoundIsOther(s, c.ref, id);
      var r := Transition(t, c.verb, c.roleOk, s.members, c.now);
      if r.Ok? {
        assert r.value.id == t.id && r.value.shortId == t.shortId by {
          TransitionRewrites(t, c.verb, c.roleOk, s.members, c.now);
        }
        WritePromotes(a, s.tasks, t, r.value, Promotes(c.verb, r.value), id);
        assert Step(s, c).0.tasks == Write(s.tasks, r.value, Promotes(c.verb, r.value));
      }
    }
  }

  lemma {:induction false} RunPromotes(db: Db, cs: seq<Command>, n: nat, id: string)
    requires Inv(db) && id in db.tasks && db.tasks[id].status == Todo && Completions(cs, db.tasks[id]) && n <= |cs|
    ensures OnlyPromoted(db.tasks, After(db, cs, n).tasks, id)
  {
    if n == 0 {
    } else {
      var s := After(db, cs, n - 1);
      assert OnlyPromoted(db.tasks, s.tasks, id) by {
        RunPromotes(db, cs, n - 1, id);
      }
      assert OnlyPromoted(db.tasks, Step(s, cs[n - 1]).0.tasks, id) by {
        InvKept(db, cs, n - 1);
        StepPromotes(db.tasks, s, cs[n - 1], id);
      }
    }
  }

  /** Completing other tasks can release a Todo task exactly when each of its parents names another task. */
  lemma ReleasableIff(db: Db, id: string)
    requires Inv(db) && id in db.tasks && db.tasks[id].status == Todo
    ensures (exists s :: Leads(db, s, db.tasks[id]) && id in s.tasks && s.tasks[id].status == Ready)
      <==> ParentsExist(db.tasks, id)
  {
    if ParentsExist(db.tasks, id) {
      var s := FinishParents(db, id);
      LeadsInv(db, s, db.tasks[id]);
      assert !Stuck(s.tasks, s.tasks[id]);
    }
    if s :| Leads(db, s, db.tasks[id]) && id in s.tasks && s.tasks[id].status == Ready {
      var cs :| LeadsBy(db, cs, s, db.tasks[id]);
      RunPromotes(db, cs, |cs|, id);
    }
  }

  // ── A task that waits for nothing ─────────────────────────────────────

  /** Create T1, complete it and put it out; create T2, with T1 and another reference as parents; reopen. */
  function Stranding(boardId: string, member: string, parent: string): seq<Command>
    requires |boardId| >= 8
  {
    var first, second := MakeTaskId(boardId, ShortId(1)), [ShortId(1), parent];
    [Create([NewTask("", "", member, None, [])], true, 0), OnTask(first, Complete(member, None), true, 0),
     Output(first, true), Create([NewTask("", "", member, None, second)], true, 0), Reopen(true, 0)]
  }

  lemma CreateSingle(db: Db, spec: NewTask)
    requires Unspent(db) && Admitted(db.members, spec)
    ensures var t := FreshTask(db.boardId, db.nextVal + 1, spec, 0);
      t.status == Ready && t.id !in db.tasks
      && Step(db, Create([spec], true, 0)).0 == db.(nextVal := db.nextVal + 1, tasks := db.tasks[t.id := t])
  {
    CreateOneIff(db, spec, 0);
    assert [spec][1..] == [];
    assert CreateAll(db, [spec], 0) == CreateOne(db, spec, 0);
  }

  /** The first task, once it is completed. */
  function Completed(boardId: string, member: string): Task
    requires |boardId| >= 8
  {
    FreshTask(boardId, 1, NewTask("", "", member, None, []), 0).(status := Done, completedAt := Some(0))
  }

  lemma FirstCompleted(db: Db, member: string, parent: string)
    requires Initial(db) && member in db.members
    ensures var t := Completed(db.boardId, member);
      After(db, Stranding(db.boardId, member, parent), 2) == db.(nextVal := 1, tasks := map[t.id := t])
  {
    var cs, t := Stranding(db.boardId, member, parent), Completed(db.boardId, member);
    var u := t.(status := Ready, completedAt := None);
    var s1 := db.(nextVal := 1, tasks := map[t.id := u]);
    assert After(db, cs, 1) == s1 by {
      InvUnspent(db);
      CreateSingle(db, NewTask("", "", member, None, []));
      assert After(db, cs, 0) == db;
    }
    assert Step(s1, cs[1]).0 == db.(nextVal := 1, tasks := map[t.id := t]) by {
      assert Inv(s1) by {
        RunKeepsInv(db, cs, 1);
      }
      CompleteOnly(s1, t.id, member);
    }
  }

  /** Completing a childless task without reviewer. */
  lemma CompleteOnly(db: Db, id: string, member: string)
    requires Inv(db) && db.tasks.Keys == {id} && db.tasks[id].assignee == member && db.tasks[id].reviewer == None
    requires db.tasks[id].status == Ready && db.tasks[id].updatedAt == 0 && db.tasks[id].summary == ""
    ensures Step(db, OnTask(id, Complete(member, None), true, 0)).0
      == db.(tasks := map[id := db.tasks[id].(status := Done, completedAt := Some(0))])
  {
    var v, t := Complete(member, None), db.tasks[id];
    Accepted(db, id, v);
    var t' := t.(status := Done, completedAt := Some(0));
    assert Transition(t, v, true, db.members, 0) == Ok(t');
    assert Write(db.tasks, t', true) == map[id := t'];
  }

  lemma SecondCreated(db: Db, member: string, parent: string)
    requires Initial(db) && member in db.members
    ensures var t := Completed(db.boardId, member);
      var u := FreshTask(db.boardId, 2, NewTask("", "", member, None, [ShortId(1), parent]), 0);
      var s := After(db, Stranding(db.boardId, member, parent), 4);
      u.id != t.id && s.tasks == map[t.id := t, u.id := u] && s.board.status == AwaitingOwner && u.status == Ready
  {
    var cs, t := Stranding(db.boardId, member, parent), Completed(db.boardId, member);
    var spec := NewTask("", "", member, None, [ShortId(1), parent]);
    FirstCompleted(db, member, parent);
    var s2, s3 := After(db, cs, 2), After(db, cs, 3);
    assert s3 == s2.(board := s2.board.(outputTaskId := Some(t.id), status := AwaitingOwner)) by {
      assert Find(s2.tasks, t.id) == Some(t);
    }
    assert Unspent(s3) by {
      RunKeepsInv(db, cs, 3);
      InvUnspent(s3);
    }
    CreateSingle(s3, spec);
  }

  /** Reopening a board of two tasks, the done one a parent of the other. */
  lemma ReopenDemotes(db: Db, t: Task, u: Task, parent: string)
    requires |db.boardId| >= 8 && db.board.status == AwaitingOwner
    requires t.id != u.id && db.tasks == map[t.id := t, u.id := u]
    requires t.status == Done && t.shortId != parent && u.status == Ready && u.parentIds == [t.shortId, parent]
    ensures var s := Step(db, Reopen(true, 0)).0;
      InTodo(s.tasks, u.id) && s.tasks[u.id].parentIds == u.parentIds && !ParentsExist(s.tasks, u.id)
  {
    var s := Step(db, Reopen(true, 0)).0;
    assert t.shortId in DoneIds(db.tasks) by {
      assert db.tasks[t.id].status == Done;
    }
    assert t.shortId in u.parentIds && parent in u.parentIds;
    assert s.tasks[u.id] == ReopenOne(u, DoneIds(db.tasks), 0);
    assert Others(s.tasks, u.id) <= {t.shortId};
  }

  /**
   On every board with a member, a task can come to wait in Todo for a reference that names no other task,
   so that no completion releases it.
   */
  lemma WaitsForNothing(db: Db, member: string, parent: string)
    requires Initial(db) && member in db.members && parent != ShortId(1)
    ensures var s := After(db, Stranding(db.boardId, member, parent), 5);
      var id := MakeTaskId(db.boardId, ShortId(2));
      InTodo(s.tasks, id) && s.tasks[id].parentIds == [ShortId(1), parent] && !ParentsExist(s.tasks, id)
  {
    var cs, t := Stranding(db.boardId, member, parent), Completed(db.boardId, member);
    var u := FreshTask(db.boardId, 2, NewTask("", "", member, None, [ShortId(1), parent]), 0);
    SecondCreated(db, member, parent);
    ReopenDemotes(After(db, cs, 4), t, u, parent);
    assert After(db, cs, 5) == Step(After(db, cs, 4), cs[4]).0;
  }
}
