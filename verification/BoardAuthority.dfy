/**
 Who may do what to a task, and what it does: the exact condition of every acceptance and refusal, every
 field of every row after every command, and behind the status of every task the command that gave it.
 */
module BoardAuthority {
  import opened Options
  import opened BoardModel
  import opened BoardSpec
  import opened BoardRuns
  import opened BoardReadiness

  // ── One row ───────────────────────────────────────────────────────────

  /** May the sender, whose role permits the verb or not, use this verb on this task? */
  predicate MayUse(t: Task, v: RowVerb, roleOk: bool) {
    match v
    case Complete(sender, _) => sender == t.assignee
    case Heartbeat(sender) => sender == t.assignee
    case Approve(sender) => t.reviewer == Some(sender)
    case Reject(sender) => t.reviewer == Some(sender)
    case Block(sender) => sender == t.assignee || roleOk
    case Continue(sender, _) => sender == t.assignee && roleOk
    case _ => roleOk
  }

  /** Do the arguments and the task's status permit the verb? */
  predicate Applies(t: Task, v: RowVerb, members: set<string>) {
    && (v.Approve? || v.Reject? ==> t.status == Reviewing)
    && (v.Heartbeat? ==> t.status == Ready || t.status == Running)
    && (v.Cancel? ==> t.status == Blocked)
    && (v.Review? ==> v.newReviewer.Some?)
    && (v.Reassign? ==> v.newAssignee != "" && v.newAssignee in members)
    && (v.SetDeadline? ==> v.newDeadline != "" && v.wellFormed)
    && (v.Continue? ==> v.progress != "")
  }

  lemma TransitionErrors(t: Task, v: RowVerb, roleOk: bool, members: set<string>, now: int)
    requires !Malformed(v)
    ensures var r := Transition(t, v, roleOk, members, now);
      && (r.Ok? <==> MayUse(t, v, roleOk) && Applies(t, v, members))
      && (r == Err(Forbidden) <==> !MayUse(t, v, roleOk))
      && (r == Err(BadRequest) <==> MayUse(t, v, roleOk) && !Applies(t, v, members))
  {
  }

  /** The status the verb leaves. */
  function StatusAfter(t: Task, v: RowVerb): TaskStatus {
    if v.Approve? || (v.Complete? && t.reviewer.None?) then Done
    else if v.Review? || v.Complete? then Reviewing
    else if v.Reject? || v.Unblock? || v.Heartbeat? then Running
    else if v.Block? then Blocked
    else if v.Cancel? then Cancelled
    else t.status
  }

  /** The row after an accepted command, field by field. */
  ghost predicate Rewritten(t: Task, v: RowVerb, now: int, u: Task) {
    && u.id == t.id && u.shortId == t.shortId && u.parentIds == t.parentIds
    && u.status == StatusAfter(t, v)
    && u.title == (if v.Edit? && v.newTitle.Some? then v.newTitle.value else t.title)
    && u.body == (if v.Edit? && v.newBody.Some? then v.newBody.value else t.body)
    && u.assignee == (if v.Reassign? then v.newAssignee else t.assignee)
    && u.reviewer == (if v.Review? then v.newReviewer else t.reviewer)
    && u.summary == (if v.Complete? && v.newSummary.Some? then v.newSummary.value
                     else if v.Continue? then v.progress else t.summary)
    && u.deadline == (if v.SetDeadline? then Some(v.newDeadline) else t.deadline)
    && u.completedAt == (if v.Approve? || (v.Complete? && t.reviewer.None?) then Some(now) else t.completedAt)
    && u.cancelledAt == (if v.Cancel? then Some(now) else t.cancelledAt)
    && u.updatedAt == now
  }

  lemma TransitionFields(t: Task, v: RowVerb, roleOk: bool, members: set<string>, now: int)
    requires Transition(t, v, roleOk, members, now).Ok?
    ensures Rewritten(t, v, now, Transition(t, v, roleOk, members, now).value)
  {
  }

  // ── Commands ──────────────────────────────────────────────────────────

  /** The reference names the task: it is its full id or its short id. */
  predicate Names(ref: string, t: Task) {
    ref == t.id || ref == t.shortId
  }

  /** The command uses its verb on this task, and is accepted. */
  ghost predicate Uses(db: Db, c: Command, id: string) {
    && c.OnTask? && id in db.tasks && Names(c.ref, db.tasks[id])
    && MayUse(db.tasks[id], c.verb, c.roleOk) && Applies(db.tasks[id], c.verb, db.members)
  }

  /** In a valid state a reference finds the task it names, and no other. */
  lemma FoundIff(db: Db, ref: string, id: string)
    requires Inv(db) && id in db.tasks
    ensures Find(db.tasks, ref) == Some(db.tasks[id]) <==> Names(ref, db.tasks[id])
  {
    assert RowOk(db, id);
    BothReferencesResolve(db, id);
    if Find(db.tasks, ref) == Some(db.tasks[id]) && ref != id {
      assert ref !in db.tasks;
    }
  }

  lemma NothingFound(db: Db, ref: string)
    requires Inv(db) && forall id :: id in db.tasks ==> !Names(ref, db.tasks[id])
    ensures Find(db.tasks, ref) == None
  {
    if Find(db.tasks, ref).Some? {
      var id := Find(db.tasks, ref).value.id;
      FoundIsStored(db, ref);
      FoundIff(db, ref, id);
    }
  }

  /** The answer to a command on the task it names: refused for want of authority, refused as such, or accepted. */
  lemma NamedAnswer(db: Db, id: string, ref: string, v: RowVerb, roleOk: bool, now: int)
    requires Inv(db) && id in db.tasks && Names(ref, db.tasks[id])
    ensures var (s, e) := Step(db, OnTask(ref, v, roleOk, now)); var t := db.tasks[id];
      && (e == None <==> MayUse(t, v, roleOk) && Applies(t, v, db.members))
      && (e == Some(Forbidden) <==> v != Review(None) && !MayUse(t, v, roleOk))
      && (e == Some(BadRequest) <==> v == Review(None) || (MayUse(t, v, roleOk) && !Applies(t, v, db.members)))
      && (e.Some? ==> s == db)
  {
    FoundIff(db, ref, id);
    if !Malformed(v) {
      TransitionErrors(db.tasks[id], v, roleOk, db.members, now);
    }
  }

  /** The answer to a command that names no task. */
  lemma UnknownAnswer(db: Db, ref: string, v: RowVerb, roleOk: bool, now: int)
    requires Inv(db) && forall id :: id in db.tasks ==> !Names(ref, db.tasks[id])
    ensures Step(db, OnTask(ref, v, roleOk, now)) == (db, Some(if v == Review(None) then BadRequest else NotFound))
  {
    NothingFound(db, ref);
  }

  // ── Every row, after every command ────────────────────────────────────

  /**
   The command completes the task: its assignee does, if it has no reviewer, or its reviewer approves it while
   it is under review.
   */
  ghost predicate Finishes(db: Db, c: Command, id: string) {
    && c.OnTask? && id in db.tasks && Names(c.ref, db.tasks[id])
    && var t := db.tasks[id];
       || (c.verb.Complete? && c.verb.sender == t.assignee && t.reviewer == None)
       || (c.verb.Approve? && t.reviewer == Some(c.verb.sender) && t.status == Reviewing)
  }

  /** The command completes another task, and with it all parents of this Todo task are done. */
  ghost predicate ReleasedBy(db: Db, c: Command, id: string, other: string) {
    && other != id && Finishes(db, c, other) && id in db.tasks && db.tasks[id].status == Todo
    && forall p :: p in db.tasks[id].parentIds ==> p in DoneIds(db.tasks) || p == db.tasks[other].shortId
  }

  ghost predicate Released(db: Db, c: Command, id: string) {
    exists other :: ReleasedBy(db, c, id, other)
  }

  /** An accepted reopen takes the task back from Done. */
  predicate Reopens(db: Db, c: Command, id: string) {
    c.Reopen? && c.roleOk && db.board.status == AwaitingOwner && id in db.tasks && db.tasks[id].status == Done
  }

  /** A sweep finds the task Running without a sign of life for longer than the threshold. */
  predicate Stale(db: Db, c: Command, id: string) {
    c.Sweep? && id in db.tasks && db.tasks[id].status == Running && c.now > db.tasks[id].updatedAt + c.threshold
  }

  /** What a command makes of a stored row. */
  ghost predicate Becomes(db: Db, c: Command, id: string, u: Task)
    requires id in db.tasks
  {
    var t := db.tasks[id];
    if Uses(db, c, id) then Rewritten(t, c.verb, c.now, u)
    else if Released(db, c, id) then u == t.(status := Ready)
    else if Reopens(db, c, id) then u == t.(status := Running, updatedAt := c.now)
    else if Demotes(db, c, id) then u == t.(status := Todo, updatedAt := c.now)
    else if Stale(db, c, id) then u == t.(status := Blocked)
    else u == t
  }

  lemma UsedRow(db: Db, c: Command, id: string)
    requires Inv(db) && Uses(db, c, id)
    ensures id in Step(db, c).0.tasks && Rewritten(db.tasks[id], c.verb, c.now, Step(db, c).0.tasks[id])
  {
    var t := db.tasks[id];
    FoundIff(db, c.ref, id);
    assert RowOk(db, id);
    TransitionErrors(t, c.verb, c.roleOk, db.members, c.now);
    TransitionFields(t, c.verb, c.roleOk, db.members, c.now);
  }

  /** A command on another task leaves the row alone, unless it releases it. */
  lemma OtherRow(db: Db, c: Command, id: string, other: string)
    requires Inv(db) && Uses(db, c, other) && id in db.tasks && id != other
    ensures id in Step(db, c).0.tasks
    ensures Step(db, c).0.tasks[id] ==
      if ReleasedBy(db, c, id, other) then db.tasks[id].(status := Ready) else db.tasks[id]
  {
    var t := db.tasks[other];
    FoundIff(db, c.ref, other);
    assert RowOk(db, other);
    TransitionErrors(t, c.verb, c.roleOk, db.members, c.now);
    TransitionFields(t, c.verb, c.roleOk, db.members, c.now);
    var t' := Transition(t, c.verb, c.roleOk, db.members, c.now).value;
    DoneIdsWritten(db, t');
    assert !Stuck(db.tasks, db.tasks[id]);
  }

  lemma NamesOne(db: Db, ref: string, a: string, b: string)
    requires Inv(db) && a in db.tasks && b in db.tasks && Names(ref, db.tasks[a]) && Names(ref, db.tasks[b])
    ensures a == b
  {
    FoundIff(db, ref, a);
    FoundIff(db, ref, b);
    assert RowOk(db, a) && RowOk(db, b);
  }

  lemma FinishesUses(db: Db, c: Command, id: string)
    requires Finishes(db, c, id)
    ensures Uses(db, c, id)
  {
  }

  lemma OnTaskRow(db: Db, c: Command, id: string)
    requires Inv(db) && c.OnTask? && id in db.tasks
    ensures id in Step(db, c).0.tasks && Becomes(db, c, id, Step(db, c).0.tasks[id])
  {
    if Uses(db, c, id) {
      UsedRow(db, c, id);
    } else if other :| Uses(db, c, other) {
      OtherRow(db, c, id, other);
      forall x | ReleasedBy(db, c, id, x) ensures x == other {
        NamesOne(db, c.ref, x, other);
      }
    } else {
      forall x | ReleasedBy(db, c, id, x) ensures false {
        FinishesUses(db, c, x);
      }
      if x :| x in db.tasks && Names(c.ref, db.tasks[x]) {
        assert !Uses(db, c, x);
        NamedAnswer(db, x, c.ref, c.verb, c.roleOk, c.now);
      } else {
        UnknownAnswer(db, c.ref, c.verb, c.roleOk, c.now);
      }
    }
  }

  /** Every stored row after every command and every sweep. */
  lemma RowAfter(db: Db, c: Command, id: string)
    requires Inv(db) && id in db.tasks
    ensures id in Step(db, c).0.tasks && Becomes(db, c, id, Step(db, c).0.tasks[id])
  {
    match c
    case OnTask(_, _, _, _) => OnTaskRow(db, c, id);
    case Create(specs, roleOk, now) =>
      CreateAllExtends(db, specs, now);
      CreatedNeverTodo(db, specs, now, id);
    case Reopen(_, _) =>
    case Sweep(_, _) =>
    case Output(_, _) =>
    case Refresh(_, _, _, _) =>
  }

  // ── New rows ──────────────────────────────────────────────────────────

  /** Entry `k` of a create command makes this row: everything as in the entry, Ready, nothing stamped. */
  ghost predicate MadeBy(db: Db, c: Command, k: int, id: string, u: Task)
    requires |db.boardId| >= 8
  {
    && c.Create? && c.roleOk && Creates(db, c.specs, k, id)
    && u.id == id && u.shortId == ShortId(db.nextVal + k + 1)
    && u.title == c.specs[k].title && u.body == c.specs[k].body && u.parentIds == c.specs[k].parents
    && u.assignee == c.specs[k].assignee && u.reviewer == c.specs[k].reviewer
    && u.status == Ready && u.summary == "" && u.updatedAt == c.now
    && u.completedAt == None && u.cancelledAt == None && u.deadline == None
  }

  /** A command adds exactly the rows of the entries it creates. */
  lemma NewRowIff(db: Db, c: Command, id: string)
    requires Inv(db) && id !in db.tasks
    ensures id in Step(db, c).0.tasks <==> c.Create? && c.roleOk && exists k :: Creates(db, c.specs, k, id)
    ensures id in Step(db, c).0.tasks ==> exists k :: MadeBy(db, c, k, id, Step(db, c).0.tasks[id])
  {
    match c
    case OnTask(ref, v, roleOk, now) => OnTaskKeys(db, c);
    case Create(specs, roleOk, now) =>
      if roleOk {
        InvUnspent(db);
        if k :| Creates(db, specs, k, id) {
          CreatedRow(db, specs, now, k, id);
          assert MadeBy(db, c, k, id, Step(db, c).0.tasks[id]);
        } else if id in Step(db, c).0.tasks {
          var k := CreatedByEntry(db, specs, now, id);
        }
      }
    case Reopen(_, _) =>
    case Sweep(_, _) =>
    case Output(_, _) =>
    case Refresh(_, _, _, _) =>
  }

  lemma OnTaskKeys(db: Db, c: Command)
    requires Inv(db) && c.OnTask?
    ensures Step(db, c).0.tasks.Keys == db.tasks.Keys
  {
    OnTaskWrites(db, c.ref, c.verb, c.roleOk, c.now);
  }

  // ── Entering a status ─────────────────────────────────────────────────

  /** What gives a task each status. */
  ghost predicate Gives(db: Db, c: Command, id: string, s: TaskStatus)
    requires |db.boardId| >= 8
  {
    match s
    case Done => Finishes(db, c, id)
    case Running =>
      || Reopens(db, c, id)
      || (c.OnTask? && id in db.tasks && Names(c.ref, db.tasks[id])
          && var t := db.tasks[id];
             || (c.verb.Heartbeat? && c.verb.sender == t.assignee && (t.status == Ready || t.status == Running))
             || (c.verb.Reject? && t.reviewer == Some(c.verb.sender) && t.status == Reviewing)
             || (c.verb.Unblock? && c.roleOk))
    case Reviewing =>
      && c.OnTask? && id in db.tasks && Names(c.ref, db.tasks[id])
      && var t := db.tasks[id];
         || (c.verb.Complete? && c.verb.sender == t.assignee && t.reviewer.Some?)
         || (c.verb.Review? && c.verb.newReviewer.Some? && c.roleOk)
    case Blocked =>
      || Stale(db, c, id)
      || (c.OnTask? && id in db.tasks && Names(c.ref, db.tasks[id])
          && c.verb.Block? && (c.verb.sender == db.tasks[id].assignee || c.roleOk))
    case Cancelled =>
      c.OnTask? && id in db.tasks && Names(c.ref, db.tasks[id])
      && c.verb.Cancel? && c.roleOk && db.tasks[id].status == Blocked
    case Todo => Demotes(db, c, id)
    case Ready => Released(db, c, id) || (c.Create? && c.roleOk && exists k :: Creates(db, c.specs, k, id))
    case _ => false
  }

  ghost predicate Has(tasks: Tasks, id: string, s: TaskStatus) {
    id in tasks && tasks[id].status == s
  }

  lemma FinishesNotReleased(db: Db, c: Command, id: string)
    requires Inv(db) && Uses(db, c, id)
    ensures !Released(db, c, id)
  {
    forall other | ReleasedBy(db, c, id, other) ensures false {
      NamesOne(db, c.ref, id, other);
    }
  }

  /** A stored row that becomes `u` enters a status exactly when the command gives it. */
  lemma BecomesIff(db: Db, c: Command, id: string, s: TaskStatus, u: Task)
    requires |db.boardId| >= 8 && id in db.tasks && db.tasks[id].status != s && Becomes(db, c, id, u)
    requires Uses(db, c, id) ==> !Released(db, c, id)
    requires c.Create? ==> forall k :: !Creates(db, c.specs, k, id)
    ensures u.status == s <==> Gives(db, c, id, s)
  {
    if c.OnTask? && Uses(db, c, id) {
      assert u.status == StatusAfter(db.tasks[id], c.verb);
    }
  }

  lemma StoredEntersIff(db: Db, c: Command, id: string, s: TaskStatus)
    requires Inv(db) && id in db.tasks && db.tasks[id].status != s
    ensures Has(Step(db, c).0.tasks, id, s) <==> Gives(db, c, id, s)
  {
    if c.Create? {
      InvUnspent(db);
      forall k | Creates(db, c.specs, k, id) ensures false {
        CreatedRow(db, c.specs, c.now, k, id);
      }
    }
    if Uses(db, c, id) {
      FinishesNotReleased(db, c, id);
    }
    RowAfter(db, c, id);
    BecomesIff(db, c, id, s, Step(db, c).0.tasks[id]);
  }

  lemma NewEntersIff(db: Db, c: Command, id: string, s: TaskStatus)
    requires Inv(db) && id !in db.tasks
    ensures Has(Step(db, c).0.tasks, id, s) <==> Gives(db, c, id, s)
  {
    NewRowIff(db, c, id);
  }

  /** A command leaves a task in a status it was not in exactly when it gives the task that status. */
  lemma EntersIff(db: Db, c: Command, id: string, s: TaskStatus)
    requires Inv(db) && !Has(db.tasks, id, s)
    ensures Has(Step(db, c).0.tasks, id, s) <==> Gives(db, c, id, s)
  {
    if id in db.tasks {
      StoredEntersIff(db, c, id, s);
    } else {
      NewEntersIff(db, c, id, s);
    }
  }

  // ── Runs ──────────────────────────────────────────────────────────────

  ghost predicate HasAt(db: Db, cs: seq<Command>, j: nat, id: string, s: TaskStatus)
    requires |db.boardId| >= 8 && j <= |cs|
  {
    Has(After(db, cs, j).tasks, id, s)
  }

  lemma {:induction false} LastEntry(db: Db, cs: seq<Command>, n: nat, id: string, s: TaskStatus) returns (i: nat)
    requires Initial(db) && n <= |cs| && HasAt(db, cs, n, id, s)
    ensures i < n && !HasAt(db, cs, i, id, s) && forall j :: i < j <= n ==> HasAt(db, cs, j, id, s)
  {
    i := n - 1;
    if HasAt(db, cs, n - 1, id, s) {
      i := LastEntry(db, cs, n - 1, id, s);
    }
  }

  /** Behind the status of every task in every run lies a command that gave it, and the task kept it since. */
  lemma StatusTraces(db: Db, cs: seq<Command>, n: nat, id: string, s: TaskStatus) returns (i: nat)
    requires Initial(db) && n <= |cs| && HasAt(db, cs, n, id, s)
    ensures i < n && Gives(After(db, cs, i), cs[i], id, s)
    ensures forall j :: i < j <= n ==> HasAt(db, cs, j, id, s)
  {
    i := LastEntry(db, cs, n, id, s);
    RunKeepsInv(db, cs, i);
    assert HasAt(db, cs, i + 1, id, s);
    EntersIff(After(db, cs, i), cs[i], id, s);
  }

  lemma {:induction false} ReviewerKept(db: Db, cs: seq<Command>, m: nat, n: nat, id: string)
    requires Initial(db) && m < n <= |cs| && Gives(After(db, cs, m), cs[m], id, Done)
    requires forall j :: m < j <= n ==> HasAt(db, cs, j, id, Done)
    ensures HasAt(db, cs, n, id, Done)
    ensures After(db, cs, n).tasks[id].reviewer == After(db, cs, m).tasks[id].reviewer
  {
    var s := After(db, cs, n - 1);
    RunKeepsInv(db, cs, n - 1);
    if n - 1 == m {
    } else {
      ReviewerKept(db, cs, m, n - 1, id);
    }
    RowAfter(s, cs[n - 1], id);
  }

  /**
   Behind every Done task lies the command that completed it.  If it has a reviewer, that reviewer approved it
   while it was under review; if it has none, its assignee completed it.
   */
  lemma DoneTraces(db: Db, cs: seq<Command>, n: nat, id: string) returns (i: nat)
    requires Initial(db) && n <= |cs| && HasAt(db, cs, n, id, Done)
    ensures i < n && cs[i].OnTask? && id in After(db, cs, i).tasks
    ensures var t := After(db, cs, i).tasks[id];
      && (cs[i].ref == id || cs[i].ref == t.shortId)
      && match After(db, cs, n).tasks[id].reviewer
         case Some(r) => cs[i].verb == Approve(r) && t.reviewer == Some(r) && t.status == Reviewing
         case None => cs[i].verb.Complete? && cs[i].verb.sender == t.assignee && t.reviewer == None
  {
    i := StatusTraces(db, cs, n, id, Done);
    ReviewerKept(db, cs, i, n, id);
    RunKeepsInv(db, cs, i);
    assert RowOk(After(db, cs, i), id);
  }

  /** Every row of a run was made by an entry of a create command, and keeps that entry's parents. */
  lemma {:induction false} RowTraces(db: Db, cs: seq<Command>, n: nat, id: string) returns (i: nat, k: int)
    requires Initial(db) && n <= |cs| && id in After(db, cs, n).tasks
    ensures i < n && id in After(db, cs, i + 1).tasks
    ensures MadeBy(After(db, cs, i), cs[i], k, id, After(db, cs, i + 1).tasks[id])
    ensures After(db, cs, n).tasks[id].parentIds == cs[i].specs[k].parents
  {
    RunKeepsInv(db, cs, n - 1);
    if id in After(db, cs, n - 1).tasks {
      i, k := RowTraces(db, cs, n - 1, id);
      RunExtends(db, cs, n - 1, n);
    } else {
      i := n - 1;
      NewRowIff(After(db, cs, i), cs[i], id);
      k :| MadeBy(After(db, cs, i), cs[i], k, id, After(db, cs, i + 1).tasks[id]);
    }
  }

  // ── The board row ─────────────────────────────────────────────────────

  /** An output is accepted for a Done task when every task is Done or Cancelled. */
  ghost predicate Outputs(db: Db, c: Command, id: string) {
    && c.Output? && c.roleOk && id in db.tasks && Names(c.ref, db.tasks[id]) && db.tasks[id].status == Done
    && forall x :: x in db.tasks ==> db.tasks[x].status == Done || db.tasks[x].status == Cancelled
  }

  /** Every answer to an output, and what it writes. */
  lemma OutputAnswer(db: Db, ref: string, roleOk: bool, id: string)
    requires Inv(db) && id in db.tasks && Names(ref, db.tasks[id])
    ensures var c := Output(ref, roleOk); var (s, e) := Step(db, c);
      && (e == None <==> Outputs(db, c, id))
      && (e == Some(Forbidden) <==> !roleOk)
      && (e == Some(BadRequest) <==> roleOk && !Outputs(db, c, id))
      && s == if e.Some? then db else db.(board := db.board.(outputTaskId := Some(id), status := AwaitingOwner))
  {
    FoundIff(db, ref, id);
    forall x | x in db.tasks ensures RowOk(db, x) {}
  }

  lemma OutputUnknown(db: Db, ref: string, roleOk: bool)
    requires Inv(db) && forall id :: id in db.tasks ==> !Names(ref, db.tasks[id])
    ensures Step(db, Output(ref, roleOk)) == (db, Some(NotFound))
  {
    NothingFound(db, ref);
  }

  /** A board comes to await its owner exactly by an accepted output. */
  lemma AwaitsIff(db: Db, c: Command)
    requires Inv(db) && db.board.status != AwaitingOwner
    ensures Step(db, c).0.board.status == AwaitingOwner <==> exists id :: Outputs(db, c, id)
  {
    if c.Output? {
      if id :| id in db.tasks && Names(c.ref, db.tasks[id]) {
        OutputAnswer(db, c.ref, c.roleOk, id);
        forall x | Outputs(db, c, x) ensures x == id {
          NamesOne(db, c.ref, x, id);
        }
      } else {
        OutputUnknown(db, c.ref, c.roleOk);
      }
    } else if c.Create? {
      CreateKeepsBoard(db, c.specs, c.now);
    }
  }

  lemma {:induction false} CreateKeepsBoard(db: Db, specs: seq<NewTask>, now: int)
    requires |db.boardId| >= 8
    ensures CreateAll(db, specs, now).0.board == db.board && CreateAll(db, specs, now).0.members == db.members
    decreases |specs|
  {
    if specs == [] {
    } else {
      var (db', e) := CreateOne(db, specs[0], now);
      if e.None? {
        CreateKeepsBoard(db', specs[1..], now);
      }
    }
  }

  /** When a board came to await its owner, every one of its tasks was Done or Cancelled. */
  lemma {:induction false} AwaitingTraces(db: Db, cs: seq<Command>, n: nat) returns (i: nat, id: string)
    requires Initial(db) && n <= |cs| && After(db, cs, n).board.status == AwaitingOwner
    ensures i < n && Outputs(After(db, cs, i), cs[i], id)
    ensures forall j :: i < j <= n ==> After(db, cs, j).board.status == AwaitingOwner
  {
    var s := After(db, cs, n - 1);
    if s.board.status == AwaitingOwner {
      i, id := AwaitingTraces(db, cs, n - 1);
    } else {
      i := n - 1;
      assert exists x :: Outputs(s, cs[i], x) by {
        RunKeepsInv(db, cs, i);
        AwaitsIff(s, cs[i]);
      }
      id :| Outputs(s, cs[i], id);
    }
  }

  /** Reopening: only of a board awaiting its owner, whose plan and criteria versions it clears. */
  lemma ReopenAnswer(db: Db, roleOk: bool, now: int)
    ensures var (s, e) := ReopenStep(db, roleOk, now);
      && (e == None <==> roleOk && db.board.status == AwaitingOwner)
      && (e == Some(Forbidden) <==> !roleOk)
      && (e == Some(BadRequest) <==> roleOk && db.board.status != AwaitingOwner)
      && (e.Some? ==> s == db)
      && (e.None? ==> s.board == db.board.(status := Active, planVersion := None, criteriaVersion := None))
      && s.members == db.members && s.nextVal == db.nextVal && s.boardId == db.boardId
  {
  }
}
