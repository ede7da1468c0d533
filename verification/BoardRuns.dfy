/**
 Every run of board commands and sweeps keeps the board invariant; in particular no task is ever
 left waiting in Todo with all its parents done.
 */
module BoardRuns {
  import opened Options
  import opened BoardModel
  import opened BoardSpec

  // ── One-row commands ──────────────────────────────────────────────────

  /** A row rewritten by a command: what stays, and the only ways it can reach Done or Todo. */
  ghost predicate Rewrites(t: Task, t': Task, promotes: bool, members: set<string>) {
    && t'.id == t.id && t'.shortId == t.shortId && t'.parentIds == t.parentIds
    && (promotes ==> t'.status == Done)
    && (t'.status == Done && t.status != Done ==> promotes)
    && (t'.status == Todo ==> t.status == Todo)
    && (t'.status == Triage || t'.status == Archived ==> t'.status == t.status)
    && (t.completedAt.Some? || (t'.status == Done && t.status != Done) ==> t'.completedAt.Some?)
    && (t.reviewer.Some? || (t'.status == Reviewing && t.status != Reviewing) ==> t'.reviewer.Some?)
    && (t.cancelledAt.Some? || (t'.status == Cancelled && t.status != Cancelled) ==> t'.cancelledAt.Some?)
    && (t'.assignee == t.assignee || t'.assignee in members)
  }

  lemma TransitionRewrites(t: Task, v: RowVerb, roleOk: bool, members: set<string>, now: int)
    requires Transition(t, v, roleOk, members, now).Ok?
    ensures var t' := Transition(t, v, roleOk, members, now).value; Rewrites(t, t', Promotes(v, t'), members)
  {
  }

  lemma WrittenRowsOk(db: Db, t': Task)
    requires |db.boardId| >= 8 && RowsOk(db) && t'.id in db.tasks
    requires RowOk(db.(tasks := db.tasks[t'.id := t']), t'.id)
    ensures RowsOk(db.(tasks := db.tasks[t'.id := t']))
  {
  }

  lemma DoneIdsAfterWrite(db: Db, t': Task)
    requires |db.boardId| >= 8 && RowsOk(db) && t'.id in db.tasks && t'.shortId == db.tasks[t'.id].shortId
    ensures DoneIds(db.tasks[t'.id := t']) <= DoneIds(db.tasks) + (if t'.status == Done then {t'.shortId} else {})
    ensures t'.status != Done ==> t'.shortId !in DoneIds(db.tasks[t'.id := t'])
  {
  }

  /** Promotion leaves the set of done tasks alone. */
  lemma PromoteKeepsDone(tasks: Tasks, parent: string)
    ensures DoneIds(Promote(tasks, parent)) == DoneIds(tasks)
  {
    var p := Promote(tasks, parent);
    forall s | s in DoneIds(tasks) ensures s in DoneIds(p) {
      var id :| id in tasks && tasks[id].status == Done && tasks[id].shortId == s;
      assert p[id].status == Done;
    }
    forall s | s in DoneIds(p) ensures s in DoneIds(tasks) {
      var id :| id in p && p[id].status == Done && p[id].shortId == s;
      assert tasks[id].status == Done;
    }
  }

  lemma PromoteRowsOk(db: Db, parent: string)
    requires |db.boardId| >= 8 && RowsOk(db)
    ensures RowsOk(db.(tasks := Promote(db.tasks, parent)))
  {
  }

  ghost function Write(tasks: Tasks, t': Task, promotes: bool): Tasks {
    var w := tasks[t'.id := t'];
    if promotes then Promote(w, t'.shortId) else w
  }

  lemma WriteKeepsRowsOk(db: Db, t: Task, t': Task, promotes: bool)
    requires |db.boardId| >= 8 && RowsOk(db) && t.id in db.tasks && db.tasks[t.id] == t
    requires Rewrites(t, t', promotes, db.members)
    ensures RowsOk(db.(tasks := Write(db.tasks, t', promotes)))
  {
    var w := db.(tasks := db.tasks[t'.id := t']);
    assert RowOk(db, t.id);
    assert RowOk(w, t.id);
    WrittenRowsOk(db, t');
    PromoteRowsOk(w, t'.shortId);
  }

  lemma WriteLeavesNoneStuck(db: Db, t: Task, t': Task, promotes: bool)
    requires |db.boardId| >= 8 && RowsOk(db) && NoneStuck(db.tasks)
    requires t.id in db.tasks && db.tasks[t.id] == t && Rewrites(t, t', promotes, db.members)
    ensures NoneStuck(Write(db.tasks, t', promotes))
  {
    var w := db.tasks[t'.id := t'];
    var f := Write(db.tasks, t', promotes);
    DoneIdsAfterWrite(db, t');
    PromoteKeepsDone(w, t'.shortId);
    forall id | id in f ensures !Stuck(f, f[id]) {
      assert !Stuck(db.tasks, db.tasks[id]);
      if promotes && t'.shortId !in w[id].parentIds {
        assert ParentsIn(w[id], DoneIds(w)) ==> ParentsIn(w[id], DoneIds(db.tasks));
      }
    }
  }

  lemma WriteKeepsInv(db: Db, t: Task, t': Task, promotes: bool)
    requires Inv(db) && t.id in db.tasks && db.tasks[t.id] == t && Rewrites(t, t', promotes, db.members)
    ensures Inv(db.(tasks := Write(db.tasks, t', promotes)))
  {
    WriteKeepsRowsOk(db, t, t', promotes);
    WriteLeavesNoneStuck(db, t, t', promotes);
  }

  /** An accepted command writes one stored row and, if that makes it done, promotes; a refused one does nothing. */
  ghost predicate Writes(db: Db, db': Db, t: Task, t': Task, promotes: bool) {
    && t.id in db.tasks && db.tasks[t.id] == t && Rewrites(t, t', promotes, db.members)
    && db' == db.(tasks := Write(db.tasks, t', promotes))
  }

  lemma OnTaskWrites(db: Db, ref: string, v: RowVerb, roleOk: bool, now: int)
    requires Inv(db)
    ensures var db' := OnTaskStep(db, ref, v, roleOk, now).0;
      db' == db || exists t, t', promotes :: Writes(db, db', t, t', promotes)
  {
    if !Malformed(v) && Find(db.tasks, ref).Some? {
      FoundIsStored(db, ref);
      var t := Find(db.tasks, ref).value;
      var r := Transition(t, v, roleOk, db.members, now);
      if r.Ok? {
        TransitionRewrites(t, v, roleOk, db.members, now);
        assert Writes(db, OnTaskStep(db, ref, v, roleOk, now).0, t, r.value, Promotes(v, r.value));
      }
    }
  }

  lemma OnTaskKeepsInv(db: Db, ref: string, v: RowVerb, roleOk: bool, now: int)
    requires Inv(db)
    ensures Inv(OnTaskStep(db, ref, v, roleOk, now).0)
  {
    var db' := OnTaskStep(db, ref, v, roleOk, now).0;
    OnTaskWrites(db, ref, v, roleOk, now);
    if t, t', promotes :| Writes(db, db', t, t', promotes) {
      WriteKeepsInv(db, t, t', promotes);
    }
  }

  // ── Whole-board commands ──────────────────────────────────────────────

  lemma OutputKeepsInv(db: Db, ref: string, roleOk: bool)
    requires Inv(db)
    ensures Inv(OutputStep(db, ref, roleOk).0)
  {
  }

  lemma CreateOneRowsOk(db: Db, spec: NewTask, now: int)
    requires |db.boardId| >= 8 && "" !in db.members && RowsOk(db)
    ensures RowsOk(CreateOne(db, spec, now).0)
  {
  }

  lemma CreateOneKeepsInv(db: Db, spec: NewTask, now: int)
    requires Inv(db)
    ensures Inv(CreateOne(db, spec, now).0)
  {
    var db' := CreateOne(db, spec, now).0;
    CreateOneRowsOk(db, spec, now);
    forall id | id in db'.tasks ensures !Stuck(db'.tasks, db'.tasks[id]) {
      assert DoneIds(db'.tasks) <= DoneIds(db.tasks);
      if id in db.tasks {
        assert !Stuck(db.tasks, db.tasks[id]);
      }
    }
  }

  /** The counter never repeats an id: past the membership checks only the foreign key can refuse a new row. */
  lemma CreateConstraintIff(db: Db, spec: NewTask, now: int)
    requires Inv(db)
    requires !(spec.reviewer.Some? && Outsider(db.members, spec.reviewer.value))
    ensures CreateOne(db, spec, now).1 == Some(ConstraintFailed) <==> spec.assignee == ""
  {
    var id := MakeTaskId(db.boardId, ShortId(db.nextVal + 1));
    if id in db.tasks {
      assert RowOk(db, id);
      TaskIdInjective(db.boardId, db.tasks[id].shortId, ShortId(db.nextVal + 1));
      var n: nat :| 1 <= n <= db.nextVal && db.tasks[id].shortId == ShortId(n);
      ShortIdInjective(n, db.nextVal + 1);
    }
  }

  lemma {:induction false} CreateAllKeepsInv(db: Db, specs: seq<NewTask>, now: int)
    requires Inv(db)
    ensures Inv(CreateAll(db, specs, now).0)
    decreases |specs|
  {
    if specs == [] {
    } else {
      CreateOneKeepsInv(db, specs[0], now);
      var (db', e) := CreateOne(db, specs[0], now);
      if e.None? {
        CreateAllKeepsInv(db', specs[1..], now);
      }
    }
  }

  lemma {:induction false} JoinAllGrows(members: set<string>, joining: seq<NewMember>)
    ensures members <= JoinAll(members, joining).0
    ensures "" !in members ==> "" !in JoinAll(members, joining).0
    decreases |joining|
  {
    if joining == [] || !joining[0].roleKnown {
    } else {
      JoinAllGrows(if joining[0].email == "" then members else members + {joining[0].email}, joining[1..]);
    }
  }

  lemma RefreshKeepsInv(db: Db, ownerOk: bool, goal: Option<string>, joining: Option<seq<NewMember>>, permsOk: bool)
    requires Inv(db)
    ensures Inv(RefreshStep(db, ownerOk, goal, joining, permsOk).0)
  {
    var db' := RefreshStep(db, ownerOk, goal, joining, permsOk).0;
    if joining.Some? {
      JoinAllGrows(db.members, joining.value);
    }
    forall id | id in db'.tasks ensures RowOk(db', id) {
      assert RowOk(db, id);
    }
  }

  /** Reopening leaves no task done, so no Todo task can have all its parents done. */
  lemma ReopenKeepsInv(db: Db, roleOk: bool, now: int)
    requires Inv(db)
    ensures Inv(ReopenStep(db, roleOk, now).0)
  {
    var db' := ReopenStep(db, roleOk, now).0;
    if roleOk && db.board.status == AwaitingOwner {
      assert DoneIds(db'.tasks) == {};
      forall id | id in db'.tasks ensures RowOk(db', id) && !Stuck(db'.tasks, db'.tasks[id]) {
        assert RowOk(db, id);
        var t := db'.tasks[id];
        if t.status == Todo {
          assert t.parentIds[0] in t.parentIds;
        }
      }
    }
  }

  lemma SweepRowsOk(db: Db, now: int, threshold: nat)
    requires |db.boardId| >= 8 && RowsOk(db)
    ensures RowsOk(db.(tasks := SweepTasks(db.tasks, now, threshold)))
  {
    var db' := db.(tasks := SweepTasks(db.tasks, now, threshold));
    forall id | id in db'.tasks ensures RowOk(db', id) {
      assert RowOk(db, id);
    }
  }

  lemma SweepLeavesNoneStuck(tasks: Tasks, now: int, threshold: nat)
    requires NoneStuck(tasks)
    ensures NoneStuck(SweepTasks(tasks, now, threshold))
  {
    var swept := SweepTasks(tasks, now, threshold);
    assert DoneIds(swept) <= DoneIds(tasks);
    forall id | id in swept ensures !Stuck(swept, swept[id]) {
      assert !Stuck(tasks, tasks[id]);
    }
  }

  lemma SweepKeepsInv(db: Db, now: int, threshold: nat)
    requires Inv(db)
    ensures Inv(db.(tasks := SweepTasks(db.tasks, now, threshold)))
  {
    SweepRowsOk(db, now, threshold);
    SweepLeavesNoneStuck(db.tasks, now, threshold);
  }

  lemma StepKeepsInv(db: Db, c: Command)
    requires Inv(db)
    ensures Inv(Step(db, c).0)
  {
    match c
    case OnTask(ref, v, roleOk, now) => OnTaskKeepsInv(db, ref, v, roleOk, now);
    case Output(ref, roleOk) => OutputKeepsInv(db, ref, roleOk);
    case Create(specs, roleOk, now) => CreateAllKeepsInv(db, specs, now);
    case Refresh(ownerOk, goal, joining, permsOk) => RefreshKeepsInv(db, ownerOk, goal, joining, permsOk);
    case Reopen(roleOk, now) => ReopenKeepsInv(db, roleOk, now);
    case Sweep(now, threshold) => SweepKeepsInv(db, now, threshold);
  }

  // ── Runs ──────────────────────────────────────────────────────────────

  /** A new board: its members (none with an empty address), no task yet. */
  ghost predicate Initial(db: Db) {
    |db.boardId| >= 8 && "" !in db.members && db.tasks == map[] && db.nextVal == 0 && db.board.status == Active
  }

  lemma StepKeepsBoardId(db: Db, c: Command)
    requires |db.boardId| >= 8
    ensures Step(db, c).0.boardId == db.boardId
  {
  }

  /** The database after the first `n` commands of a run. */
  ghost function After(db: Db, cs: seq<Command>, n: nat): (r: Db)
    requires |db.boardId| >= 8 && n <= |cs|
    ensures r.boardId == db.boardId
  {
    if n == 0 then db
    else
      StepKeepsBoardId(After(db, cs, n - 1), cs[n - 1]);
      Step(After(db, cs, n - 1), cs[n - 1]).0
  }

  lemma {:induction false} InvKept(db: Db, cs: seq<Command>, n: nat)
    requires Inv(db) && n <= |cs|
    ensures Inv(After(db, cs, n))
  {
    if n == 0 {
    } else {
      InvKept(db, cs, n - 1);
      StepKeepsInv(After(db, cs, n - 1), cs[n - 1]);
    }
  }

  /** Every state that a new board reaches satisfies the invariant. */
  lemma RunKeepsInv(db: Db, cs: seq<Command>, n: nat)
    requires Initial(db) && n <= |cs|
    ensures Inv(After(db, cs, n))
  {
    InvKept(db, cs, n);
  }

  /** What every reachable row satisfies, spelled out. */
  lemma ReachableRow(db: Db, cs: seq<Command>, n: nat, id: string)
    requires Initial(db) && n <= |cs| && id in After(db, cs, n).tasks
    ensures var s := After(db, cs, n); var t := s.tasks[id];
      && (t.status == Todo ==> t.parentIds != [] && exists p :: p in t.parentIds && p !in DoneIds(s.tasks))
      && (t.status == Reviewing ==> t.reviewer.Some?)
      && (t.status == Done ==> t.completedAt.Some?)
      && (t.status == Cancelled ==> t.cancelledAt.Some?)
      && t.assignee in s.members
      && ParseTaskStatus(StatusText(t.status)) == t.status
      && Find(s.tasks, id) == Find(s.tasks, t.shortId) == Some(t)
      && (exists k: nat :: 1 <= k <= s.nextVal && t.shortId == ShortId(k))
      && (forall other :: other in s.tasks && s.tasks[other].shortId == t.shortId ==> other == id)
  {
    RunKeepsInv(db, cs, n);
    var s := After(db, cs, n);
    assert RowOk(s, id) && !Stuck(s.tasks, s.tasks[id]);
    BothReferencesResolve(s, id);
    StatusRoundTripIff(s.tasks[id].status);
    forall other | other in s.tasks && s.tasks[other].shortId == s.tasks[id].shortId ensures other == id {
      ShortIdsDistinct(s, other, id);
    }
  }

  // ── Promotion, exactly ────────────────────────────────────────────────

  /**
   When a task becomes done, the promoted tasks are exactly those in Todo whose last unfinished
   parent it was; every other row is left as it is.
   */
  lemma PromotesExactlyUnblocked(db: Db, ref: string, v: RowVerb, roleOk: bool, now: int, id: string)
    requires Inv(db) && Find(db.tasks, ref).Some? && id in db.tasks
    requires var t := Find(db.tasks, ref).value; t.status != Done && t.id != id
    requires var t := Find(db.tasks, ref).value; var r := Transition(t, v, roleOk, db.members, now);
      r.Ok? && r.value.status == Done
    ensures var s := OnTaskStep(db, ref, v, roleOk, now).0;
      && id in s.tasks
      && (s.tasks[id] != db.tasks[id] <==> db.tasks[id].status == Todo && ParentsIn(db.tasks[id], DoneIds(s.tasks)))
      && (s.tasks[id] != db.tasks[id] ==> s.tasks[id] == db.tasks[id].(status := Ready))
  {
    FoundIsStored(db, ref);
    var t := Find(db.tasks, ref).value;
    var t' := Transition(t, v, roleOk, db.members, now).value;
    TransitionRewrites(t, v, roleOk, db.members, now);
    if Stuck(db.tasks[t'.id := t'], db.tasks[id]) {
      UnblockedAreChildren(db, t, t', id);
    }
    PromoteKeepsDone(db.tasks[t'.id := t'], t'.shortId);
  }

  lemma UnblockedAreChildren(db: Db, t: Task, t': Task, id: string)
    requires Inv(db) && t.id in db.tasks && db.tasks[t.id] == t && Rewrites(t, t', true, db.members)
    requires id in db.tasks && id != t.id && Stuck(db.tasks[t'.id := t'], db.tasks[id])
    ensures t'.shortId in db.tasks[id].parentIds
  {
  }

  /** Command `c`, run in state `db`, takes a Ready task back to Todo because one of its parents is reopened. */
  ghost predicate Demotes(db: Db, c: Command, id: string) {
    && c.Reopen? && c.roleOk && db.board.status == AwaitingOwner
    && id in db.tasks && db.tasks[id].status == Ready
    && exists p :: p in db.tasks[id].parentIds && p in DoneIds(db.tasks)
  }

  lemma WriteNeverTodo(tasks: Tasks, t: Task, t': Task, promotes: bool, id: string)
    requires t.id in tasks && tasks[t.id] == t && t'.id == t.id && (t'.status == Todo ==> t.status == Todo)
    ensures var f := Write(tasks, t', promotes);
      id in f && f[id].status == Todo ==> id in tasks && tasks[id].status == Todo
  {
  }

  lemma OnTaskNeverTodo(db: Db, ref: string, v: RowVerb, roleOk: bool, now: int, id: string)
    requires Inv(db)
    ensures var s := OnTaskStep(db, ref, v, roleOk, now).0;
      id in s.tasks && s.tasks[id].status == Todo ==> id in db.tasks && db.tasks[id].status == Todo
  {
    var db' := OnTaskStep(db, ref, v, roleOk, now).0;
    OnTaskWrites(db, ref, v, roleOk, now);
    if t, t', promotes :| Writes(db, db', t, t', promotes) {
      WriteNeverTodo(db.tasks, t, t', promotes, id);
    }
  }

  /** A task enters Todo only when a reopen demotes it from Ready because one of its parents was done. */
  lemma TodoOnlyByReopen(db: Db, c: Command, id: string)
    requires Inv(db) && id in Step(db, c).0.tasks && Step(db, c).0.tasks[id].status == Todo
    requires id in db.tasks ==> db.tasks[id].status != Todo
    ensures Demotes(db, c, id)
  {
    if c.OnTask? {
      OnTaskNeverTodo(db, c.ref, c.verb, c.roleOk, c.now, id);
    } else if c.Create? && c.roleOk {
      CreatedNeverTodo(db, c.specs, c.now, id);
    }
  }

  lemma {:induction false} CreatedNeverTodo(db: Db, specs: seq<NewTask>, now: int, id: string)
    requires |db.boardId| >= 8 && "" !in db.members && id in CreateAll(db, specs, now).0.tasks
    ensures id in db.tasks ==> CreateAll(db, specs, now).0.tasks[id] == db.tasks[id]
    ensures id !in db.tasks ==> CreateAll(db, specs, now).0.tasks[id].status == Ready
    decreases |specs|
  {
    if specs == [] {
    } else {
      var (db', e) := CreateOne(db, specs[0], now);
      if e.None? {
        CreatedNeverTodo(db', specs[1..], now, id);
      }
    }
  }

  predicate InTodo(tasks: Tasks, id: string) {
    id in tasks && tasks[id].status == Todo
  }

  lemma {:induction false} EntersTodo(db: Db, cs: seq<Command>, n: nat, id: string) returns (i: nat)
    requires Initial(db) && n <= |cs| && InTodo(After(db, cs, n).tasks, id)
    ensures i < n && InTodo(After(db, cs, i + 1).tasks, id) && !InTodo(After(db, cs, i).tasks, id)
  {
    i := n - 1;
    if InTodo(After(db, cs, n - 1).tasks, id) {
      i := EntersTodo(db, cs, n - 1, id);
    }
  }

  /** Over runs: behind every Todo task lies an accepted reopen that demoted it. */
  lemma TodoTracesToReopen(db: Db, cs: seq<Command>, n: nat, id: string) returns (i: nat)
    requires Initial(db) && n <= |cs| && InTodo(After(db, cs, n).tasks, id)
    ensures i < n && Demotes(After(db, cs, i), cs[i], id)
  {
    i := EntersTodo(db, cs, n, id);
    assert Inv(After(db, cs, i)) by {
      RunKeepsInv(db, cs, i);
    }
    TodoOnlyByReopen(After(db, cs, i), cs[i], id);
  }

  // ── What never goes away ──────────────────────────────────────────────

  /** Rows are never deleted and keep their ids and parents; completion and cancellation stamps stay. */
  ghost predicate Extends(a: Db, b: Db) {
    && a.members <= b.members && a.nextVal <= b.nextVal && a.boardId == b.boardId
    && forall id :: id in a.tasks ==>
         && id in b.tasks
         && b.tasks[id].shortId == a.tasks[id].shortId && b.tasks[id].parentIds == a.tasks[id].parentIds
         && (a.tasks[id].completedAt.Some? ==> b.tasks[id].completedAt.Some?)
         && (a.tasks[id].cancelledAt.Some? ==> b.tasks[id].cancelledAt.Some?)
  }

  lemma {:induction false} CreateAllExtends(db: Db, specs: seq<NewTask>, now: int)
    requires |db.boardId| >= 8
    ensures Extends(db, CreateAll(db, specs, now).0)
    decreases |specs|
  {
    if specs == [] {
    } else {
      var (db', e) := CreateOne(db, specs[0], now);
      if e.None? {
        CreateAllExtends(db', specs[1..], now);
      }
    }
  }

  lemma OnTaskExtends(db: Db, ref: string, v: RowVerb, roleOk: bool, now: int)
    requires Inv(db)
    ensures Extends(db, OnTaskStep(db, ref, v, roleOk, now).0)
  {
    var db' := OnTaskStep(db, ref, v, roleOk, now).0;
    OnTaskWrites(db, ref, v, roleOk, now);
    if t, t', promotes :| Writes(db, db', t, t', promotes) {
      WriteExtends(db, t, t', promotes);
    }
  }

  lemma WriteExtends(db: Db, t: Task, t': Task, promotes: bool)
    requires t.id in db.tasks && db.tasks[t.id] == t && Rewrites(t, t', promotes, db.members)
    ensures Extends(db, db.(tasks := Write(db.tasks, t', promotes)))
  {
  }

  lemma ReopenExtends(db: Db, roleOk: bool, now: int)
    ensures Extends(db, ReopenStep(db, roleOk, now).0)
  {
  }

  lemma SweepExtends(db: Db, now: int, threshold: nat)
    ensures Extends(db, db.(tasks := SweepTasks(db.tasks, now, threshold)))
  {
  }

  lemma StepExtends(db: Db, c: Command)
    requires Inv(db)
    ensures Extends(db, Step(db, c).0)
  {
    match c
    case OnTask(ref, v, roleOk, now) =>
      OnTaskExtends(db, ref, v, roleOk, now);
    case Create(specs, roleOk, now) => CreateAllExtends(db, specs, now);
    case Refresh(ownerOk, goal, joining, _) =>
      if joining.Some? {
        JoinAllGrows(db.members, joining.value);
      }
    case Reopen(roleOk, now) => ReopenExtends(db, roleOk, now);
    case Sweep(now, threshold) => SweepExtends(db, now, threshold);
    case Output(_, _) =>
  }

  lemma {:induction false} RunExtends(db: Db, cs: seq<Command>, m: nat, n: nat)
    requires Initial(db) && m <= n <= |cs|
    ensures Extends(After(db, cs, m), After(db, cs, n))
  {
    if m == n {
    } else {
      RunExtends(db, cs, m, n - 1);
      RunKeepsInv(db, cs, n - 1);
      StepExtends(After(db, cs, n - 1), cs[n - 1]);
    }
  }

  /** A board awaiting its owner names an existing task that was completed. */
  lemma AwaitingOwnerHasOutput(db: Db, cs: seq<Command>, n: nat)
    requires Initial(db) && n <= |cs| && After(db, cs, n).board.status == AwaitingOwner
    ensures var s := After(db, cs, n);
      && s.board.outputTaskId.Some? && s.board.outputTaskId.value in s.tasks
      && s.tasks[s.board.outputTaskId.value].completedAt.Some?
  {
    RunKeepsInv(db, cs, n);
  }
}
