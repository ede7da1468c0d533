/** Ready and its parents: exactly how a Ready task comes to have an unfinished parent. */
module BoardReadiness {
  import opened Options
  import opened BoardModel
  import opened BoardSpec
  import opened BoardRuns

  // ── Ready although a parent is not done ───────────────────────────────

  predicate Ahead(tasks: Tasks, id: string) {
    id in tasks && tasks[id].status == Ready && !ParentsIn(tasks[id], DoneIds(tasks))
  }

  /** The verbs that take a done task out of Done, when they are accepted. */
  predicate Undoes(t: Task, v: RowVerb) {
    v.Review? || v.Block? || v.Unblock? || (v.Complete? && t.reviewer.Some?)
  }

  lemma UndoesIff(t: Task, v: RowVerb, roleOk: bool, members: set<string>, now: int)
    requires t.status == Done && Transition(t, v, roleOk, members, now).Ok?
    ensures Transition(t, v, roleOk, members, now).value.status != Done <==> Undoes(t, v)
  {
  }

  /** The command is accepted on a done parent of the Ready task and takes that parent out of Done. */
  ghost predicate ParentUndone(db: Db, c: Command, id: string) {
    && c.OnTask? && !Malformed(c.verb) && Find(db.tasks, c.ref).Some?
    && var t := Find(db.tasks, c.ref).value;
    && Transition(t, c.verb, c.roleOk, db.members, c.now).Ok? && t.status == Done && Undoes(t, c.verb)
    && id in db.tasks && db.tasks[id].status == Ready && t.shortId in db.tasks[id].parentIds
  }

  predicate Admitted(members: set<string>, spec: NewTask) {
    spec.assignee in members && !(spec.reviewer.Some? && Outsider(members, spec.reviewer.value))
  }

  /** Entry `k` of a batch is created under the given id: it and all entries before it are admitted. */
  predicate Creates(db: Db, specs: seq<NewTask>, k: int, id: string)
    requires |db.boardId| >= 8
  {
    && 0 <= k < |specs| && (forall j :: 0 <= j <= k ==> Admitted(db.members, specs[j]))
    && id == MakeTaskId(db.boardId, ShortId(db.nextVal + k + 1))
  }

  /** The command creates the task with a parent that is not done. */
  ghost predicate CreatedAhead(db: Db, c: Command, id: string)
    requires |db.boardId| >= 8
  {
    c.Create? && c.roleOk
    && exists k :: Creates(db, c.specs, k, id) && !(forall p :: p in c.specs[k].parents ==> p in DoneIds(db.tasks))
  }

  // Creation.

  /** No id that the counter has yet to give out is in use. */
  ghost predicate Unspent(db: Db) {
    && |db.boardId| >= 8 && "" !in db.members
    && forall n: nat :: n > db.nextVal ==> MakeTaskId(db.boardId, ShortId(n)) !in db.tasks
  }

  lemma InvUnspent(db: Db)
    requires Inv(db)
    ensures Unspent(db)
  {
    forall n: nat | n > db.nextVal ensures MakeTaskId(db.boardId, ShortId(n)) !in db.tasks {
      var id := MakeTaskId(db.boardId, ShortId(n));
      if id in db.tasks {
        assert RowOk(db, id);
        TaskIdInjective(db.boardId, db.tasks[id].shortId, ShortId(n));
        var m: nat :| 1 <= m <= db.nextVal && db.tasks[id].shortId == ShortId(m);
        ShortIdInjective(m, n);
      }
    }
  }

  lemma CreateOneIff(db: Db, spec: NewTask, now: int)
    requires Unspent(db)
    ensures var (db', e) := CreateOne(db, spec, now);
      var t := FreshTask(db.boardId, db.nextVal + 1, spec, now);
      && db'.boardId == db.boardId && db'.members == db.members
      && (e.None? <==> Admitted(db.members, spec))
      && (e.None? ==> db'.nextVal == db.nextVal + 1 && t.id !in db.tasks && t.status == Ready)
      && (e.None? ==> db'.tasks == db.tasks[t.id := t])
      && (e.Some? ==> db'.tasks == db.tasks)
  {
  }

  lemma CreateOneUnspent(db: Db, spec: NewTask, now: int)
    requires Unspent(db) && Admitted(db.members, spec)
    ensures Unspent(CreateOne(db, spec, now).0)
  {
    var db' := CreateOne(db, spec, now).0;
    CreateOneIff(db, spec, now);
    forall n: nat | n > db'.nextVal ensures MakeTaskId(db'.boardId, ShortId(n)) !in db'.tasks {
      if MakeTaskId(db.boardId, ShortId(n)) == MakeTaskId(db.boardId, ShortId(db.nextVal + 1)) {
        TaskIdInjective(db.boardId, ShortId(n), ShortId(db.nextVal + 1));
        ShortIdInjective(n, db.nextVal + 1);
      }
    }
  }

  lemma CreatesTail(db: Db, specs: seq<NewTask>, now: int, k: int, id: string)
    requires Unspent(db) && Creates(db, specs, k, id) && k > 0
    ensures var (db', e) := CreateOne(db, specs[0], now);
      && e.None? && db'.nextVal == db.nextVal + 1 && db'.boardId == db.boardId
      && Unspent(db') && Creates(db', specs[1..], k - 1, id)
  {
    CreateOneIff(db, specs[0], now);
    CreateOneUnspent(db, specs[0], now);
  }

  lemma CreatedFirst(db: Db, specs: seq<NewTask>, now: int)
    requires Unspent(db) && specs != [] && Admitted(db.members, specs[0])
    ensures var t, s := FreshTask(db.boardId, db.nextVal + 1, specs[0], now), CreateAll(db, specs, now).0;
      t.id in s.tasks && s.tasks[t.id] == t && t.status == Ready
  {
    CreateOneIff(db, specs[0], now);
    var db' := CreateOne(db, specs[0], now).0;
    CreateAllExtends(db', specs[1..], now);
    CreatedNeverTodo(db', specs[1..], now, FreshTask(db.boardId, db.nextVal + 1, specs[0], now).id);
  }

  /** A batch creates exactly its leading admitted entries, under consecutive short ids, all Ready. */
  lemma {:induction false} CreatedRow(db: Db, specs: seq<NewTask>, now: int, k: int, id: string)
    requires Unspent(db) && Creates(db, specs, k, id)
    ensures id !in db.tasks && id in CreateAll(db, specs, now).0.tasks
    ensures CreateAll(db, specs, now).0.tasks[id] == FreshTask(db.boardId, db.nextVal + k + 1, specs[k], now)
    ensures CreateAll(db, specs, now).0.tasks[id].status == Ready
    decreases |specs|
  {
    if k == 0 {
      CreatedFirst(db, specs, now);
    } else {
      CreatesTail(db, specs, now, k, id);
      CreatedRow(CreateOne(db, specs[0], now).0, specs[1..], now, k - 1, id);
    }
  }

  lemma {:induction false} CreatedByEntry(db: Db, specs: seq<NewTask>, now: int, id: string) returns (k: int)
    requires Unspent(db) && id in CreateAll(db, specs, now).0.tasks && id !in db.tasks
    ensures Creates(db, specs, k, id)
    decreases |specs|
  {
    CreateOneIff(db, specs[0], now);
    var db' := CreateOne(db, specs[0], now).0;
    if id in db'.tasks {
      k := 0;
    } else {
      CreateOneUnspent(db, specs[0], now);
      var j := CreatedByEntry(db', specs[1..], now, id);
      k := j + 1;
      forall i | 0 <= i <= k ensures Admitted(db.members, specs[i]) {
        assert i > 0 ==> specs[i] == specs[1..][i - 1];
      }
    }
  }

  lemma CreateKeepsDone(db: Db, specs: seq<NewTask>, now: int)
    requires Inv(db)
    ensures DoneIds(CreateAll(db, specs, now).0.tasks) == DoneIds(db.tasks)
  {
    var tasks' := CreateAll(db, specs, now).0.tasks;
    CreateAllExtends(db, specs, now);
    forall id | id in tasks' ensures tasks'[id].status == Done <==> id in db.tasks && db.tasks[id].status == Done
    {
      CreatedNeverTodo(db, specs, now, id);
    }
    forall s ensures s in DoneIds(tasks') <==> s in DoneIds(db.tasks) {
      if s in DoneIds(db.tasks) {
        var id :| id in db.tasks && db.tasks[id].status == Done && db.tasks[id].shortId == s;
        assert tasks'[id].status == Done && tasks'[id].shortId == s;
      }
      if s in DoneIds(tasks') {
        var id :| id in tasks' && tasks'[id].status == Done && tasks'[id].shortId == s;
        assert db.tasks[id].status == Done;
      }
    }
  }

  lemma AheadCreateIff(db: Db, specs: seq<NewTask>, now: int, id: string)
    requires Inv(db)
    ensures Ahead(CreateAll(db, specs, now).0.tasks, id) && !Ahead(db.tasks, id) <==>
      CreatedAhead(db, Create(specs, true, now), id)
  {
    var tasks' := CreateAll(db, specs, now).0.tasks;
    CreateKeepsDone(db, specs, now);
    CreateAllExtends(db, specs, now);
    InvUnspent(db);
    if id in db.tasks {
      CreatedNeverTodo(db, specs, now, id);
      forall k | Creates(db, specs, k, id) ensures false {
        CreatedRow(db, specs, now, k, id);
      }
    } else if id in tasks' {
      var k := CreatedByEntry(db, specs, now, id);
      CreatedRow(db, specs, now, k, id);
      forall j | Creates(db, specs, j, id) ensures specs[j].parents == specs[k].parents {
        CreatedRow(db, specs, now, j, id);
      }
    } else {
      forall k | Creates(db, specs, k, id) ensures false {
        CreatedRow(db, specs, now, k, id);
      }
    }
  }

  // Commands on one task.

  lemma ReadyStays(t: Task, v: RowVerb, roleOk: bool, members: set<string>, now: int)
    requires Transition(t, v, roleOk, members, now).Ok?
    ensures var t' := Transition(t, v, roleOk, members, now).value;
      && (t'.status == Ready ==> t.status == Ready)
      && (t'.status == Done && t.status != Done ==> Promotes(v, t'))
  {
  }

  /** Writing one row changes the done set by that row alone. */
  lemma DoneIdsWritten(db: Db, t': Task)
    requires |db.boardId| >= 8 && RowsOk(db) && t'.id in db.tasks && t'.shortId == db.tasks[t'.id].shortId
    ensures DoneIds(db.tasks[t'.id := t']) ==
      if t'.status == Done then DoneIds(db.tasks) + {t'.shortId} else DoneIds(db.tasks) - {t'.shortId}
  {
    var w := db.tasks[t'.id := t'];
    DoneIdsAfterWrite(db, t');
    forall s | s in DoneIds(db.tasks) && s != t'.shortId ensures s in DoneIds(w) {
      var id :| id in db.tasks && db.tasks[id].status == Done && db.tasks[id].shortId == s;
      assert w[id].status == Done && w[id].shortId == s;
    }
    if t'.status == Done {
      assert w[t'.id].status == Done;
    }
  }

  lemma DoneIdsAfter(db: Db, t: Task, t': Task, promotes: bool)
    requires Inv(db) && t.id in db.tasks && db.tasks[t.id] == t && Rewrites(t, t', promotes, db.members)
    ensures var done, done' := DoneIds(db.tasks), DoneIds(Write(db.tasks, t', promotes));
      && done' == DoneIds(db.tasks[t'.id := t'])
      && done' == (if t'.status == Done then done + {t.shortId} else done - {t.shortId})
      && (t.status != Done ==> t.shortId !in done)
  {
    DoneIdsWritten(db, t');
    PromoteKeepsDone(db.tasks[t'.id := t'], t'.shortId);
    if t.status != Done {
      NotDoneId(db, t);
    }
  }

  /** The own row of a command never becomes ahead; another row does when the written row leaves Done. */
  lemma AheadWriteIff(db: Db, t: Task, t': Task, promotes: bool, id: string)
    requires Inv(db) && t.id in db.tasks && db.tasks[t.id] == t && Rewrites(t, t', promotes, db.members)
    requires t'.status == Ready ==> t.status == Ready
    ensures Ahead(Write(db.tasks, t', promotes), id) && !Ahead(db.tasks, id) <==>
      && id in db.tasks && db.tasks[id].status == Ready && !Ahead(db.tasks, id)
      && t.status == Done && t'.status != Done && t.shortId in db.tasks[id].parentIds
  {
    var w := db.tasks[t'.id := t'];
    var f := Write(db.tasks, t', promotes);
    DoneIdsAfter(db, t, t', promotes);
    if id in db.tasks && id != t.id {
      assert f[id] == w[id] || (f[id].status == Ready && ParentsIn(f[id], DoneIds(f)));
    }
  }

  lemma NotDoneId(db: Db, t: Task)
    requires |db.boardId| >= 8 && RowsOk(db) && t.id in db.tasks && db.tasks[t.id] == t && t.status != Done
    ensures t.shortId !in DoneIds(db.tasks)
  {
    forall id | id in db.tasks && db.tasks[id].shortId == t.shortId ensures id == t.id {
      ShortIdsDistinct(db, id, t.id);
    }
  }

  lemma AheadOnTaskIff(db: Db, ref: string, v: RowVerb, roleOk: bool, now: int, id: string)
    requires Inv(db)
    ensures Ahead(OnTaskStep(db, ref, v, roleOk, now).0.tasks, id) && !Ahead(db.tasks, id) <==>
      ParentUndone(db, OnTask(ref, v, roleOk, now), id) && !Ahead(db.tasks, id)
  {
    if !Malformed(v) && Find(db.tasks, ref).Some? {
      FoundIsStored(db, ref);
      var t := Find(db.tasks, ref).value;
      var r := Transition(t, v, roleOk, db.members, now);
      if r.Ok? {
        TransitionRewrites(t, v, roleOk, db.members, now);
        ReadyStays(t, v, roleOk, db.members, now);
        AheadWriteIff(db, t, r.value, Promotes(v, r.value), id);
        if t.status == Done {
          UndoesIff(t, v, roleOk, db.members, now);
        }
        assert OnTaskStep(db, ref, v, roleOk, now).0.tasks == Write(db.tasks, r.value, Promotes(v, r.value));
      }
    }
  }

  // The rest.

  lemma ReopenNeverAhead(db: Db, roleOk: bool, now: int, id: string)
    requires Ahead(ReopenStep(db, roleOk, now).0.tasks, id)
    ensures Ahead(db.tasks, id)
  {
    if roleOk && db.board.status == AwaitingOwner {
      var t := ReopenStep(db, roleOk, now).0.tasks[id];
      var p :| p in t.parentIds && p !in DoneIds(ReopenTasks(db.tasks, now));
      assert p in db.tasks[id].parentIds && p !in DoneIds(db.tasks);
    }
  }

  lemma SweepKeepsAhead(tasks: Tasks, now: int, threshold: nat, id: string)
    ensures Ahead(SweepTasks(tasks, now, threshold), id) <==> Ahead(tasks, id)
  {
    var swept := SweepTasks(tasks, now, threshold);
    forall s ensures s in DoneIds(swept) <==> s in DoneIds(tasks) {
      if s in DoneIds(tasks) {
        var x :| x in tasks && tasks[x].status == Done && tasks[x].shortId == s;
        assert swept[x].status == Done;
      }
    }
    assert DoneIds(swept) == DoneIds(tasks);
  }

  /**
   Exactly how a task comes to be Ready with an unfinished parent: it is created so, or an accepted
   review, block, unblock or re-completion takes a done parent out of Done.  A reopen never does it.
   */
  lemma AheadStepIff(db: Db, c: Command, id: string)
    requires Inv(db)
    ensures Ahead(Step(db, c).0.tasks, id) && !Ahead(db.tasks, id) <==>
      CreatedAhead(db, c, id) || (ParentUndone(db, c, id) && !Ahead(db.tasks, id))
  {
    match c
    case OnTask(ref, v, roleOk, now) => AheadOnTaskIff(db, ref, v, roleOk, now, id);
    case Create(specs, roleOk, now) => AheadCreateIff(db, specs, now, id);
    case Reopen(roleOk, now) =>
      if Ahead(Step(db, c).0.tasks, id) {
        ReopenNeverAhead(db, roleOk, now, id);
      }
    case Sweep(now, threshold) => SweepKeepsAhead(db.tasks, now, threshold, id);
    case Output(_, _) =>
    case Refresh(_, _, _, _) =>
  }

  ghost predicate GetsAhead(db: Db, c: Command, id: string)
    requires |db.boardId| >= 8
  {
    CreatedAhead(db, c, id) || ParentUndone(db, c, id)
  }

  lemma AheadCause(db: Db, c: Command, id: string)
    requires Inv(db) && Ahead(Step(db, c).0.tasks, id) && !Ahead(db.tasks, id)
    ensures GetsAhead(db, c, id)
  {
    AheadStepIff(db, c, id);
  }

  lemma {:induction false} CrossesAhead(db: Db, cs: seq<Command>, n: nat, id: string) returns (i: nat)
    requires Initial(db) && n <= |cs| && Ahead(After(db, cs, n).tasks, id)
    ensures i < n && Ahead(After(db, cs, i + 1).tasks, id) && !Ahead(After(db, cs, i).tasks, id)
  {
    i := n - 1;
    if Ahead(After(db, cs, n - 1).tasks, id) {
      i := CrossesAhead(db, cs, n - 1, id);
    }
  }

  /** Over runs: behind every Ready task with an unfinished parent lies such a command. */
  lemma AheadTraces(db: Db, cs: seq<Command>, n: nat, id: string) returns (i: nat)
    requires Initial(db) && n <= |cs| && Ahead(After(db, cs, n).tasks, id)
    ensures i < n && GetsAhead(After(db, cs, i), cs[i], id)
  {
    i := CrossesAhead(db, cs, n, id);
    assert Inv(After(db, cs, i)) by {
      RunKeepsInv(db, cs, i);
    }
    AheadCause(After(db, cs, i), cs[i], id);
  }

  /** So on every board: a first task with parents, and a child whose done parent is unblocked. */
  lemma ReadyBeforeParents(db: Db, spec: NewTask, now: int)
    requires Initial(db) && Admitted(db.members, spec) && spec.parents != []
    ensures Ahead(Step(db, Create([spec], true, now)).0.tasks, MakeTaskId(db.boardId, ShortId(1)))
  {
    var id := MakeTaskId(db.boardId, ShortId(1));
    assert Creates(db, [spec], 0, id);
    assert spec.parents[0] in spec.parents;
    AheadStepIff(db, Create([spec], true, now), id);
  }

  lemma UnblockedParentLeavesChild(db: Db, parent: string, child: string, now: int)
    requires Inv(db) && parent in db.tasks && db.tasks[parent].status == Done
    requires child in db.tasks && db.tasks[child].status == Ready && ParentsIn(db.tasks[child], DoneIds(db.tasks))
    requires db.tasks[parent].shortId in db.tasks[child].parentIds
    ensures Ahead(Step(db, OnTask(parent, Unblock, true, now)).0.tasks, child)
  {
    BothReferencesResolve(db, parent);
    AheadStepIff(db, OnTask(parent, Unblock, true, now), child);
  }
}
