/**
 What each board command does to the board database, as functions on its contents, and the
 invariant that every command and every sweep keeps.
 */
module BoardSpec {
  import opened Options
  import opened BoardModel

  datatype Error = NotFound | Forbidden | BadRequest | ConstraintFailed
  datatype Result<+T> = Ok(value: T) | Err(error: Error)

  type Tasks = map<string, Task>

  // ── Promotion, demotion, staleness ────────────────────────────────────

  function DoneIds(tasks: Tasks): set<string> {
    set id | id in tasks && tasks[id].status == Done :: tasks[id].shortId
  }

  predicate ParentsIn(t: Task, done: set<string>) {
    forall p :: p in t.parentIds ==> p in done
  }

  /** Is the task waiting in Todo although all its parents are done? */
  predicate Stuck(tasks: Tasks, t: Task) {
    t.status == Todo && ParentsIn(t, DoneIds(tasks))
  }

  function PromoteOne(t: Task, parent: string, done: set<string>): Task {
    if parent in t.parentIds && t.status == Todo && ParentsIn(t, done) then t.(status := Ready) else t
  }

  function Promote(tasks: Tasks, parent: string): Tasks {
    var done := DoneIds(tasks);
    map id | id in tasks :: PromoteOne(tasks[id], parent, done)
  }

  function ReopenOne(t: Task, reopened: set<string>, now: int): Task {
    if t.status == Done then t.(status := Running, updatedAt := now)
    else if t.status == Ready && exists p :: p in t.parentIds && p in reopened then t.(status := Todo, updatedAt := now)
    else t
  }

  function ReopenTasks(tasks: Tasks, now: int): Tasks {
    var reopened := DoneIds(tasks);
    map id | id in tasks :: ReopenOne(tasks[id], reopened, now)
  }

  function SweepOne(t: Task, now: int, threshold: nat): Task {
    if t.status == Running && now - t.updatedAt > threshold then t.(status := Blocked) else t
  }

  function SweepTasks(tasks: Tasks, now: int, threshold: nat): Tasks {
    map id | id in tasks :: SweepOne(tasks[id], now, threshold)
  }

  // ── Commands on one task row ──────────────────────────────────────────

  datatype RowVerb =
    | Complete(sender: string, newSummary: Option<string>)
    | Approve(sender: string)
    | Review(newReviewer: Option<string>)
    | Reject(sender: string)
    | Block(sender: string)
    | Unblock
    | Heartbeat(sender: string)
    | Cancel
    | Reassign(newAssignee: string)
    | Edit(newTitle: Option<string>, newBody: Option<string>)
    | SetDeadline(newDeadline: string, wellFormed: bool)
    | Continue(sender: string, progress: string)

  function OrElse(o: Option<string>, d: string): string {
    if o.Some? then o.value else d
  }

  /** The row a command writes back, or why it is refused.  `roleOk` is the answer of the role table. */
  function Transition(t: Task, v: RowVerb, roleOk: bool, members: set<string>, now: int): Result<Task> {
    match v
    case Complete(sender, s) =>
      if t.assignee != sender then Err(Forbidden)
      else if t.reviewer.Some? then
        Ok(t.(summary := OrElse(s, t.summary), status := Reviewing, updatedAt := now))
      else
        Ok(t.(summary := OrElse(s, t.summary), status := Done, completedAt := Some(now), updatedAt := now))
    case Approve(sender) =>
      if t.reviewer != Some(sender) then Err(Forbidden)
      else if t.status != Reviewing then Err(BadRequest)
      else Ok(t.(status := Done, completedAt := Some(now), updatedAt := now))
    case Review(r) =>
      if r.None? then Err(BadRequest)
      else if !roleOk then Err(Forbidden)
      else Ok(t.(reviewer := r, status := Reviewing, updatedAt := now))
    case Reject(sender) =>
      if t.reviewer != Some(sender) then Err(Forbidden)
      else if t.status != Reviewing then Err(BadRequest)
      else Ok(t.(status := Running, updatedAt := now))
    case Block(sender) =>
      if sender != t.assignee && !roleOk then Err(Forbidden)
      else Ok(t.(status := Blocked, updatedAt := now))
    case Unblock =>
      if !roleOk then Err(Forbidden) else Ok(t.(status := Running, updatedAt := now))
    case Heartbeat(sender) =>
      if t.assignee != sender then Err(Forbidden)
      else if t.status != Ready && t.status != Running then Err(BadRequest)
      else Ok(t.(status := Running, updatedAt := now))
    case Cancel =>
      if !roleOk then Err(Forbidden)
      else if t.status != Blocked then Err(BadRequest)
      else Ok(t.(status := Cancelled, cancelledAt := Some(now), updatedAt := now))
    case Reassign(a) =>
      if !roleOk then Err(Forbidden)
      else if a == "" || a !in members then Err(BadRequest)
      else Ok(t.(assignee := a, updatedAt := now))
    case Edit(title, body) =>
      if !roleOk then Err(Forbidden)
      else Ok(t.(title := OrElse(title, t.title), body := OrElse(body, t.body), updatedAt := now))
    case SetDeadline(d, wellFormed) =>
      if !roleOk then Err(Forbidden)
      else if d == "" || !wellFormed then Err(BadRequest)
      else Ok(t.(deadline := Some(d), updatedAt := now))
    case Continue(sender, progress) =>
      if !roleOk || t.assignee != sender then Err(Forbidden)
      else if progress == "" then Err(BadRequest)
      else Ok(t.(summary := progress, updatedAt := now))
  }

  // ── Commands ──────────────────────────────────────────────────────────

  datatype NewTask = NewTask(
    title: string, body: string, assignee: string, reviewer: Option<string>, parents: seq<string>)
  datatype NewMember = NewMember(email: string, roleKnown: bool)

  datatype Command =
    | OnTask(ref: string, verb: RowVerb, roleOk: bool, now: int)
    | Output(ref: string, roleOk: bool)
    | Create(specs: seq<NewTask>, roleOk: bool, now: int)
    | Refresh(ownerOk: bool, newGoal: Option<string>, newMembers: Option<seq<NewMember>>, permsOk: bool)
    | Reopen(roleOk: bool, now: int)
    | Sweep(now: int, threshold: nat)

  /** A task reference is a full id or, failing that, a short id. */
  ghost function Find(tasks: Tasks, ref: string): Option<Task> {
    if ref in tasks then Some(tasks[ref])
    else if exists id :: id in tasks && tasks[id].shortId == ref then
      var id :| id in tasks && tasks[id].shortId == ref;
      Some(tasks[id])
    else None
  }

  predicate Promotes(v: RowVerb, t: Task) {
    (v.Complete? || v.Approve?) && t.status == Done
  }

  /** A review without reviewer is refused before its task is looked up. */
  predicate Malformed(v: RowVerb) {
    v == Review(None)
  }

  ghost function OnTaskStep(db: Db, ref: string, v: RowVerb, roleOk: bool, now: int): (Db, Option<Error>) {
    if Malformed(v) then (db, Some(BadRequest))
    else match Find(db.tasks, ref)
    case None => (db, Some(NotFound))
    case Some(t) =>
      match Transition(t, v, roleOk, db.members, now)
      case Err(e) => (db, Some(e))
      case Ok(t') =>
        var written := db.tasks[t'.id := t'];
        (db.(tasks := if Promotes(v, t') then Promote(written, t'.shortId) else written), None)
  }

  predicate Settled(t: Task) {
    t.status == Done || t.status == Cancelled || t.status == Triage || t.status == Archived
  }

  ghost function OutputStep(db: Db, ref: string, roleOk: bool): (Db, Option<Error>) {
    match Find(db.tasks, ref)
    case None => (db, Some(NotFound))
    case Some(t) =>
      if !roleOk then (db, Some(Forbidden))
      else if t.status != Done || exists id :: id in db.tasks && !Settled(db.tasks[id]) then (db, Some(BadRequest))
      else (db.(board := db.board.(outputTaskId := Some(t.id), status := AwaitingOwner)), None)
  }

  function FreshTask(boardId: string, n: nat, spec: NewTask, now: int): Task
    requires |boardId| >= 8
  {
    Task(MakeTaskId(boardId, ShortId(n)), ShortId(n), spec.title, spec.body,
         if spec.assignee == "" then Triage else Ready,
         spec.assignee, spec.reviewer, spec.parents, "", now, None, None, None)
  }

  function Outsider(members: set<string>, who: string): bool {
    who != "" && who !in members
  }

  /** One entry of a create batch.  The counter is spent before the insert can fail on the foreign key. */
  function CreateOne(db: Db, spec: NewTask, now: int): (Db, Option<Error>)
    requires |db.boardId| >= 8
  {
    if Outsider(db.members, spec.assignee) then (db, Some(BadRequest))
    else if spec.reviewer.Some? && Outsider(db.members, spec.reviewer.value) then (db, Some(BadRequest))
    else
      var n := db.nextVal + 1;
      var t := FreshTask(db.boardId, n, spec, now);
      if spec.assignee !in db.members || t.id in db.tasks then (db.(nextVal := n), Some(ConstraintFailed))
      else (db.(nextVal := n, tasks := db.tasks[t.id := t]), None)
  }

  /** A batch stops at its first failing entry and keeps what was created before it. */
  function CreateAll(db: Db, specs: seq<NewTask>, now: int): (r: (Db, Option<Error>))
    requires |db.boardId| >= 8
    ensures r.0.boardId == db.boardId
    decreases |specs|
  {
    if specs == [] then (db, None)
    else
      var (db', e) := CreateOne(db, specs[0], now);
      if e.Some? then (db', e) else CreateAll(db', specs[1..], now)
  }

  function JoinAll(members: set<string>, joining: seq<NewMember>): (set<string>, Option<Error>)
    decreases |joining|
  {
    if joining == [] then (members, None)
    else if !joining[0].roleKnown then (members, Some(BadRequest))
    else JoinAll(if joining[0].email == "" then members else members + {joining[0].email}, joining[1..])
  }

  /** `permsOk`: the role and verb names of a permission override are known.  They are looked at last. */
  function RefreshStep(db: Db, ownerOk: bool, goal: Option<string>, joining: Option<seq<NewMember>>, permsOk: bool)
    : (Db, Option<Error>)
  {
    if !ownerOk then (db, Some(Forbidden))
    else
      var db' := db.(board := db.board.(status := Active, goal := if goal.Some? then goal else db.board.goal));
      if joining.None? then (db', Some(BadRequest))
      else
        var (ms, e) := JoinAll(db.members, joining.value);
        (db'.(members := ms), if e.None? && !permsOk then Some(BadRequest) else e)
  }

  function ReopenStep(db: Db, roleOk: bool, now: int): (Db, Option<Error>) {
    if !roleOk then (db, Some(Forbidden))
    else if db.board.status != AwaitingOwner then (db, Some(BadRequest))
    else
      (db.(tasks := ReopenTasks(db.tasks, now),
           board := db.board.(status := Active, planVersion := None, criteriaVersion := None)), None)
  }

  ghost function Step(db: Db, c: Command): (Db, Option<Error>)
    requires |db.boardId| >= 8
  {
    match c
    case OnTask(ref, v, roleOk, now) => OnTaskStep(db, ref, v, roleOk, now)
    case Output(ref, roleOk) => OutputStep(db, ref, roleOk)
    case Create(specs, roleOk, now) => if roleOk then CreateAll(db, specs, now) else (db, Some(Forbidden))
    case Refresh(ownerOk, goal, joining, permsOk) => RefreshStep(db, ownerOk, goal, joining, permsOk)
    case Reopen(roleOk, now) => ReopenStep(db, roleOk, now)
    case Sweep(now, threshold) => (db.(tasks := SweepTasks(db.tasks, now, threshold)), None)
  }

  // ── The invariant ─────────────────────────────────────────────────────

  /** What holds of each stored row on its own. */
  ghost predicate RowOk(db: Db, id: string)
    requires |db.boardId| >= 8 && id in db.tasks
  {
    var t := db.tasks[id];
    && t.id == id && id == MakeTaskId(db.boardId, t.shortId)
    && (exists n: nat :: 1 <= n <= db.nextVal && t.shortId == ShortId(n))
    && t.assignee in db.members
    && t.status != Triage && t.status != Archived
    && (t.status == Reviewing ==> t.reviewer.Some?)
    && (t.status == Done ==> t.completedAt.Some?)
    && (t.status == Cancelled ==> t.cancelledAt.Some?)
    && (t.status == Todo ==> t.parentIds != [])
  }

  ghost predicate RowsOk(db: Db)
    requires |db.boardId| >= 8
  {
    forall id :: id in db.tasks ==> RowOk(db, id)
  }

  ghost predicate NoneStuck(tasks: Tasks) {
    forall id :: id in tasks ==> !Stuck(tasks, tasks[id])
  }

  ghost predicate OutputOk(db: Db) {
    db.board.status == AwaitingOwner ==>
      && db.board.outputTaskId.Some? && db.board.outputTaskId.value in db.tasks
      && db.tasks[db.board.outputTaskId.value].completedAt.Some?
  }

  ghost predicate Inv(db: Db) {
    |db.boardId| >= 8 && "" !in db.members && RowsOk(db) && NoneStuck(db.tasks) && OutputOk(db)
  }

  /** Distinct rows carry distinct short ids. */
  lemma ShortIdsDistinct(db: Db, a: string, b: string)
    requires |db.boardId| >= 8 && RowsOk(db)
    requires a in db.tasks && b in db.tasks && db.tasks[a].shortId == db.tasks[b].shortId
    ensures a == b
  {
  }

  /** Both references of a stored task find that task, and nothing else. */
  lemma BothReferencesResolve(db: Db, id: string)
    requires |db.boardId| >= 8 && RowsOk(db) && id in db.tasks
    ensures Find(db.tasks, id) == Some(db.tasks[id])
    ensures Find(db.tasks, db.tasks[id].shortId) == Some(db.tasks[id])
  {
    assert RowOk(db, id);
    var short := db.tasks[id].shortId;
    var n: nat :| 1 <= n <= db.nextVal && short == ShortId(n);
    assert short !in db.tasks by {
      if short in db.tasks {
        assert RowOk(db, short);
        IdsDisjoint(db.boardId, db.tasks[short].shortId, n);
      }
    }
    forall other | other in db.tasks && db.tasks[other].shortId == short ensures other == id {
      ShortIdsDistinct(db, other, id);
    }
  }

  lemma FoundIsStored(db: Db, ref: string)
    requires |db.boardId| >= 8 && RowsOk(db) && Find(db.tasks, ref).Some?
    ensures var t := Find(db.tasks, ref).value; t.id in db.tasks && db.tasks[t.id] == t
  {
  }
}
