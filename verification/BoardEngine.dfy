/**
 The board command engine: handlers read a row, change it and write it back; promotion, reopening
 and the stale sweep walk over all rows in whatever order the database lists them.
 */
module BoardEngine {
  import opened Options
  import opened BoardModel
  import opened BoardSpec
  import opened BoardRuns
  import opened TableWalk

  /** Rows are stored under their own id, with a status whose text reads back as itself. */
  ghost predicate Readable(tasks: Tasks) {
    forall id :: id in tasks ==> tasks[id].id == id && tasks[id].status != Triage && tasks[id].status != Archived
  }

  /** `rows` is the table listed in the order of `ids`. */
  ghost predicate Lists(rows: seq<Task>, ids: seq<string>, tasks: Tasks) {
    && Enumerates(ids, tasks) && |rows| == |ids|
    && forall i {:trigger rows[i]} :: 0 <= i < |rows| ==> rows[i] == tasks[ids[i]] && rows[i].id == ids[i]
  }

  lemma ListedDone(rows: seq<Task>, ids: seq<string>, tasks: Tasks)
    requires Lists(rows, ids, tasks)
    ensures (set t | t in rows && t.status == Done :: t.shortId) == DoneIds(tasks)
  {
    var done := set t | t in rows && t.status == Done :: t.shortId;
    forall s | s in DoneIds(tasks) ensures s in done {
      var id :| id in tasks && tasks[id].status == Done && tasks[id].shortId == s;
      var i :| 0 <= i < |ids| && ids[i] == id;
      assert rows[i] in rows;
    }
    forall s | s in done ensures s in DoneIds(tasks) {
      var t :| t in rows && t.status == Done && t.shortId == s;
      assert tasks[t.id] == t;
    }
  }

  const SETTLED_TEXTS := ["done", "cancelled", "triage", "archived"]

  lemma SettledText(t: Task)
    ensures StatusText(t.status) in SETTLED_TEXTS <==> Settled(t)
  {
    match t.status
    case Todo => assert "todo"[1] == 'o';
    case Ready => assert "ready"[0] == 'r';
    case Running => assert "running"[0] == 'r';
    case Reviewing => assert "reviewing"[0] == 'r';
    case Blocked => assert "blocked"[0] == 'b';
    case _ =>
  }

  /** The short ids of the tasks that keep a pipeline from being intact. */
  function Unsettled(tasks: Tasks): set<string> {
    set id | id in tasks && !Settled(tasks[id]) :: tasks[id].shortId
  }

  lemma UnsettledIff(tasks: Tasks)
    ensures Unsettled(tasks) == {} <==> forall id :: id in tasks ==> Settled(tasks[id])
  {
    forall id | id in tasks && !Settled(tasks[id]) ensures tasks[id].shortId in Unsettled(tasks) {
    }
  }

  /** None of the first `i` rows has this short id. */
  predicate Passed(rows: seq<Task>, i: nat, ref: string) {
    i <= |rows| && forall j :: 0 <= j < i ==> rows[j].shortId != ref
  }

  lemma ListedFound(db: Db, rows: seq<Task>, ids: seq<string>, i: nat)
    requires |db.boardId| >= 8 && RowsOk(db) && Lists(rows, ids, db.tasks) && i < |rows|
    ensures Find(db.tasks, rows[i].shortId) == Some(rows[i])
  {
    BothReferencesResolve(db, rows[i].id);
  }

  lemma ListedNowhere(tasks: Tasks, rows: seq<Task>, ids: seq<string>, ref: string)
    requires Lists(rows, ids, tasks) && Passed(rows, |rows|, ref) && ref !in tasks
    ensures Find(tasks, ref) == None
  {
    forall id | id in tasks ensures tasks[id].shortId != ref {
      var j :| 0 <= j < |ids| && ids[j] == id;
      assert rows[j].shortId != ref;
    }
  }

  /** Rewriting listed row `i` takes a walk one row further; a row that stays as it is need not be written. */
  lemma WalkRow(current: Tasks, start: Tasks, rows: seq<Task>, ids: seq<string>, target: Tasks, i: nat, t: Task)
    requires Walking(current, start, ids, target, i) && Lists(rows, ids, start) && i < |rows| && target[ids[i]] == t
    ensures Walking(current[rows[i].id := t], start, ids, target, i + 1)
    ensures t == rows[i] ==> Walking(current, start, ids, target, i + 1)
    ensures rows[i].id in current && current[rows[i].id] == rows[i]
  {
    WalkWrite(current, start, ids, target, i, t);
    if t == rows[i] {
      WalkSkip(current, start, ids, target, i);
    }
    WalkPoint(start, ids, target, i);
  }

  /** The walk of a promotion. */
  ghost predicate Promoting(current: Tasks, start: Tasks, rows: seq<Task>, ids: seq<string>, parent: string, i: nat) {
    Lists(rows, ids, start) && Walking(current, start, ids, Promote(start, parent), i)
  }

  lemma PromoteStart(start: Tasks, rows: seq<Task>, ids: seq<string>, parent: string)
    requires Lists(rows, ids, start)
    ensures Promoting(start, start, rows, ids, parent, 0)
  {
  }

  lemma PromoteRow(current: Tasks, start: Tasks, rows: seq<Task>, ids: seq<string>, parent: string, i: nat)
    requires Promoting(current, start, rows, ids, parent, i) && i < |rows|
    ensures var t := PromoteOne(rows[i], parent, DoneIds(start));
      && Promoting(current[rows[i].id := t], start, rows, ids, parent, i + 1)
      && (t == rows[i] ==> Promoting(current, start, rows, ids, parent, i + 1))
      && rows[i].id in current && current[rows[i].id] == rows[i]
  {
    WalkRow(current, start, rows, ids, Promote(start, parent), i, PromoteOne(rows[i], parent, DoneIds(start)));
  }

  lemma PromoteEnd(current: Tasks, start: Tasks, rows: seq<Task>, ids: seq<string>, parent: string)
    requires Promoting(current, start, rows, ids, parent, |rows|)
    ensures current == Promote(start, parent)
  {
    WalkAll(current, start, ids, Promote(start, parent));
  }

  /** The walk of a reopen. */
  ghost predicate Reopening(current: Tasks, start: Tasks, rows: seq<Task>, ids: seq<string>, now: int, i: nat) {
    Lists(rows, ids, start) && Walking(current, start, ids, ReopenTasks(start, now), i)
  }

  lemma ReopenStart(start: Tasks, rows: seq<Task>, ids: seq<string>, now: int)
    requires Lists(rows, ids, start)
    ensures Reopening(start, start, rows, ids, now, 0)
  {
  }

  lemma ReopenRow(current: Tasks, start: Tasks, rows: seq<Task>, ids: seq<string>, now: int, i: nat)
    requires Reopening(current, start, rows, ids, now, i) && i < |rows|
    ensures var t := ReopenOne(rows[i], DoneIds(start), now);
      && Reopening(current[rows[i].id := t], start, rows, ids, now, i + 1)
      && (t == rows[i] ==> Reopening(current, start, rows, ids, now, i + 1))
      && rows[i].id in current && current[rows[i].id] == rows[i]
  {
    WalkRow(current, start, rows, ids, ReopenTasks(start, now), i, ReopenOne(rows[i], DoneIds(start), now));
  }

  lemma ReopenEnd(current: Tasks, start: Tasks, rows: seq<Task>, ids: seq<string>, now: int)
    requires Reopening(current, start, rows, ids, now, |rows|)
    ensures current == ReopenTasks(start, now)
  {
    WalkAll(current, start, ids, ReopenTasks(start, now));
  }

  /** The walk of a sweep. */
  ghost predicate Sweeping(
      current: Tasks, start: Tasks, rows: seq<Task>, ids: seq<string>, now: int, threshold: nat, i: nat)
  {
    Lists(rows, ids, start) && Walking(current, start, ids, SweepTasks(start, now, threshold), i)
  }

  lemma SweepStart(start: Tasks, rows: seq<Task>, ids: seq<string>, now: int, threshold: nat)
    requires Lists(rows, ids, start)
    ensures Sweeping(start, start, rows, ids, now, threshold, 0)
  {
  }

  lemma SweepRow(current: Tasks, start: Tasks, rows: seq<Task>, ids: seq<string>, now: int, threshold: nat, i: nat)
    requires Sweeping(current, start, rows, ids, now, threshold, i) && i < |rows|
    ensures var t := SweepOne(rows[i], now, threshold);
      && Sweeping(current[rows[i].id := t], start, rows, ids, now, threshold, i + 1)
      && (t == rows[i] ==> Sweeping(current, start, rows, ids, now, threshold, i + 1))
      && rows[i].id in current && current[rows[i].id] == rows[i]
  {
    WalkRow(current, start, rows, ids, SweepTasks(start, now, threshold), i, SweepOne(rows[i], now, threshold));
  }

  lemma SweepEnd(current: Tasks, start: Tasks, rows: seq<Task>, ids: seq<string>, now: int, threshold: nat)
    requires Sweeping(current, start, rows, ids, now, threshold, |rows|)
    ensures current == SweepTasks(start, now, threshold)
  {
    WalkAll(current, start, ids, SweepTasks(start, now, threshold));
  }

  /** Creating the entries from `i` on ends as the whole batch does. */
  ghost predicate Creating(whole: (Db, Option<Error>), db: Db, specs: seq<NewTask>, now: int, i: nat) {
    |db.boardId| >= 8 && i <= |specs| && CreateAll(db, specs[i..], now) == whole
  }

  lemma CreateStart(db: Db, specs: seq<NewTask>, now: int)
    requires |db.boardId| >= 8
    ensures Creating(CreateAll(db, specs, now), db, specs, now, 0)
  {
    assert specs[0..] == specs;
  }

  lemma {:induction false} CreateNext(whole: (Db, Option<Error>), db: Db, specs: seq<NewTask>, now: int, i: nat)
    requires Creating(whole, db, specs, now, i)
    ensures i == |specs| ==> whole == (db, None)
    ensures i < |specs| ==>
      var r := CreateOne(db, specs[i], now); if r.1.Some? then whole == r else Creating(whole, r.0, specs, now, i + 1)
  {
    if i < |specs| {
      assert specs[i..][1..] == specs[i + 1..];
    }
  }

  function ReadRow(t: Task): Task {
    t.(status := ParseTaskStatus(StatusText(t.status)))
  }

  lemma ReadRowIdentity(t: Task)
    requires t.status != Triage && t.status != Archived
    ensures ReadRow(t) == t
  {
  }

  lemma InvReadable(db: Db)
    requires |db.boardId| >= 8 && RowsOk(db)
    ensures Readable(db.tasks)
  {
  }

  class Board {
    const boardId: string
    var board: BoardRow
    var members: set<string>
    var tasks: Tasks
    var nextVal: nat

    ghost function View(): Db
      reads this
    {
      Db(boardId, board, members, tasks, nextVal)
    }

    ghost predicate Valid()
      reads this
    {
      Inv(View())
    }

    constructor (boardId: string, members: set<string>)
      requires |boardId| >= 8 && "" !in members
      ensures Valid() && Initial(View()) && View().members == members
    {
      this.boardId := boardId;
      this.board := BoardRow(Active, None, None, None, None);
      this.members := members;
      this.tasks := map[];
      this.nextVal := 0;
    }

    method ListTasks() returns (rows: seq<Task>, ghost ids: seq<string>)
      requires Readable(tasks)
      ensures Lists(rows, ids, tasks)
    {
      rows, ids := [], [];
      var rest := tasks.Keys;
      while rest != {}
        invariant rest <= tasks.Keys && |rows| == |ids|
        invariant forall i :: 0 <= i < |ids| ==> ids[i] in tasks && ids[i] !in rest && rows[i] == tasks[ids[i]]
        invariant forall i, j :: 0 <= i < j < |ids| ==> ids[i] != ids[j]
        invariant forall id :: id in tasks && id !in rest ==> id in ids
        decreases |rest|
      {
        var id :| id in rest;
        ReadRowIdentity(tasks[id]);
        rows, ids := rows + [ReadRow(tasks[id])], ids + [id];
        rest := rest - {id};
      }
    }

    /** All rows, and the short ids of those that are done. */
    method ListWithDone() returns (rows: seq<Task>, done: set<string>, ghost ids: seq<string>)
      requires Readable(tasks)
      ensures Lists(rows, ids, tasks) && done == DoneIds(tasks)
    {
      rows, ids := ListTasks();
      done := set t | t in rows && t.status == Done :: t.shortId;
      ListedDone(rows, ids, tasks);
    }

    /** By full id, else by short id. */
    method GetTask(ref: string) returns (r: Option<Task>)
      requires Valid()
      ensures r == Find(tasks, ref)
    {
      assert Readable(tasks) by {
        InvReadable(View());
      }
      if ref in tasks {
        ReadRowIdentity(tasks[ref]);
        return Some(ReadRow(tasks[ref]));
      }
      var rows, ids := ListTasks();
      for i := 0 to |rows|
        invariant Passed(rows, i, ref)
      {
        if rows[i].shortId == ref {
          assert Find(tasks, ref) == Some(rows[i]) by {
            ListedFound(View(), rows, ids, i);
          }
          return Some(rows[i]);
        }
      }
      assert Find(tasks, ref) == None by {
        ListedNowhere(tasks, rows, ids, ref);
      }
      return None;
    }

    /** One scan: the done set is read once, before the first child is written. */
    method PromoteChildren(parent: string)
      requires Readable(tasks)
      modifies this`tasks
      ensures tasks == Promote(old(tasks), parent)
    {
      var rows, done, ids := ListWithDone();
      PromoteStart(tasks, rows, ids, parent);
      for i := 0 to |rows|
        invariant Promoting(tasks, old(tasks), rows, ids, parent, i)
      {
        var child := rows[i];
        PromoteRow(tasks, old(tasks), rows, ids, parent, i);
        if parent in child.parentIds && ParentsIn(child, done) && child.status == Todo {
          tasks := tasks[child.id := child.(status := Ready)];
        }
      }
      PromoteEnd(tasks, old(tasks), rows, ids, parent);
    }

    /** The straightforward promotion: child and parents are read again from the table for every child. */
    method PromoteChildrenRereading(parent: string)
      requires Readable(tasks)
      modifies this`tasks
      ensures tasks == Promote(old(tasks), parent)
    {
      var rows, ids := ListTasks();
      ghost var done := DoneIds(tasks);
      PromoteStart(tasks, rows, ids, parent);
      for i := 0 to |rows|
        invariant Promoting(tasks, old(tasks), rows, ids, parent, i) && DoneIds(tasks) == done
      {
        PromoteRow(tasks, old(tasks), rows, ids, parent, i);
        var child := tasks[rows[i].id];
        if parent in child.parentIds && child.status == Todo && ParentsIn(child, DoneIds(tasks)) {
          SameDone(tasks, child.id, child.(status := Ready));
          tasks := tasks[child.id := child.(status := Ready)];
        }
      }
      PromoteEnd(tasks, old(tasks), rows, ids, parent);
    }

    method OnTask(ref: string, v: RowVerb, roleOk: bool, now: int) returns (e: Option<Error>)
      requires Valid()
      modifies this`tasks
      ensures Valid() && (View(), e) == OnTaskStep(old(View()), ref, v, roleOk, now)
    {
      OnTaskKeepsInv(View(), ref, v, roleOk, now);
      if Malformed(v) {
        return Some(BadRequest);
      }
      var found := GetTask(ref);
      if found.None? {
        return Some(NotFound);
      }
      var r := Transition(found.value, v, roleOk, members, now);
      if r.Err? {
        return Some(r.error);
      }
      var t := r.value;
      WriteReadable(View(), ref, v, roleOk, now);
      tasks := tasks[t.id := t];
      if Promotes(v, t) {
        PromoteChildren(t.shortId);
      }
      return None;
    }

    /** Done tasks go back to Running; Ready children of a done task go back to Todo. */
    method ReopenRows(now: int)
      requires Readable(tasks)
      modifies this`tasks
      ensures tasks == ReopenTasks(old(tasks), now)
    {
      var rows, reopened, ids := ListWithDone();
      ReopenStart(tasks, rows, ids, now);
      for i := 0 to |rows|
        invariant Reopening(tasks, old(tasks), rows, ids, now, i)
      {
        var t := rows[i];
        ReopenRow(tasks, old(tasks), rows, ids, now, i);
        if t.status == Done {
          tasks := tasks[t.id := t.(status := Running, updatedAt := now)];
        } else if t.status == Ready && exists p :: p in t.parentIds && p in reopened {
          tasks := tasks[t.id := t.(status := Todo, updatedAt := now)];
        }
      }
      ReopenEnd(tasks, old(tasks), rows, ids, now);
    }

    method ReopenBoard(roleOk: bool, now: int) returns (e: Option<Error>)
      requires Valid()
      modifies this`tasks, this`board
      ensures Valid() && (View(), e) == ReopenStep(old(View()), roleOk, now)
    {
      ReopenKeepsInv(View(), roleOk, now);
      if !roleOk {
        return Some(Forbidden);
      }
      if board.status != AwaitingOwner {
        return Some(BadRequest);
      }
      InvReadable(View());
      ReopenRows(now);
      board := board.(status := Active, planVersion := None, criteriaVersion := None);
      return None;
    }

    /** Running tasks without a sign of life for longer than the threshold are blocked. */
    method SweepStale(now: int, threshold: nat)
      requires Readable(tasks)
      modifies this`tasks
      ensures tasks == SweepTasks(old(tasks), now, threshold)
    {
      var rows, ids := ListTasks();
      SweepStart(tasks, rows, ids, now, threshold);
      for i := 0 to |rows|
        invariant Sweeping(tasks, old(tasks), rows, ids, now, threshold, i)
      {
        var t := rows[i];
        SweepRow(tasks, old(tasks), rows, ids, now, threshold, i);
        if t.status == Running && now - t.updatedAt > threshold {
          tasks := tasks[t.id := t.(status := Blocked)];
        }
      }
      SweepEnd(tasks, old(tasks), rows, ids, now, threshold);
    }

    /** The query compares the stored text, so it takes rows that would read back as Todo for settled. */
    method VerifyPipeline() returns (issues: set<string>)
      ensures issues == Unsettled(tasks)
    {
      issues := {};
      var rest := tasks.Keys;
      while rest != {}
        invariant rest <= tasks.Keys
        invariant issues == set id | id in tasks && id !in rest && !Settled(tasks[id]) :: tasks[id].shortId
        decreases |rest|
      {
        var id :| id in rest;
        SettledText(tasks[id]);
        if StatusText(tasks[id].status) !in SETTLED_TEXTS {
          issues := issues + {tasks[id].shortId};
        }
        rest := rest - {id};
      }
    }

    method OutputTask(ref: string, roleOk: bool) returns (e: Option<Error>)
      requires Valid()
      modifies this`board
      ensures Valid() && (View(), e) == OutputStep(old(View()), ref, roleOk)
    {
      OutputKeepsInv(View(), ref, roleOk);
      var found := GetTask(ref);
      if found.None? {
        return Some(NotFound);
      }
      if !roleOk {
        return Some(Forbidden);
      }
      if found.value.status != Done {
        return Some(BadRequest);
      }
      var issues := VerifyPipeline();
      if issues != {} {
        UnsettledIff(tasks);
        return Some(BadRequest);
      }
      UnsettledIff(tasks);
      board := board.(outputTaskId := Some(found.value.id), status := AwaitingOwner);
      return None;
    }

    method CreateTask(spec: NewTask, now: int) returns (e: Option<Error>)
      requires |boardId| >= 8
      modifies this`tasks, this`nextVal
      ensures (View(), e) == CreateOne(old(View()), spec, now)
    {
      if Outsider(members, spec.assignee) {
        return Some(BadRequest);
      }
      if spec.reviewer.Some? && Outsider(members, spec.reviewer.value) {
        return Some(BadRequest);
      }
      nextVal := nextVal + 1;
      var t := FreshTask(boardId, nextVal, spec, now);
      if t.assignee !in members || t.id in tasks {
        return Some(ConstraintFailed);
      }
      tasks := tasks[t.id := t];
      return None;
    }

    /** The batch is not a transaction: entries before a failing one stay created. */
    method CreateTasks(specs: seq<NewTask>, roleOk: bool, now: int) returns (e: Option<Error>)
      requires Valid()
      modifies this`tasks, this`nextVal
      ensures Valid()
      ensures (View(), e) == if roleOk then CreateAll(old(View()), specs, now) else (old(View()), Some(Forbidden))
    {
      if !roleOk {
        return Some(Forbidden);
      }
      ghost var whole := CreateAll(View(), specs, now);
      CreateAllKeepsInv(View(), specs, now);
      CreateStart(View(), specs, now);
      for i := 0 to |specs|
        invariant Creating(whole, View(), specs, now, i)
      {
        CreateNext(whole, View(), specs, now, i);
        e := CreateTask(specs[i], now);
        if e.Some? {
          return;
        }
      }
      CreateNext(whole, View(), specs, now, |specs|);
      return None;
    }

    method RefreshBoard(ownerOk: bool, goal: Option<string>, joining: Option<seq<NewMember>>, permsOk: bool)
      returns (e: Option<Error>)
      requires Valid()
      modifies this`board, this`members
      ensures Valid() && (View(), e) == RefreshStep(old(View()), ownerOk, goal, joining, permsOk)
    {
      RefreshKeepsInv(View(), ownerOk, goal, joining, permsOk);
      if !ownerOk {
        return Some(Forbidden);
      }
      board := board.(status := Active, goal := if goal.Some? then goal else board.goal);
      if joining.None? {
        return Some(BadRequest);
      }
      var ms := joining.value;
      for i := 0 to |ms|
        invariant JoinAll(members, ms[i..]) == JoinAll(old(members), ms)
        invariant board == old(board).(status := Active, goal := if goal.Some? then goal else old(board).goal)
      {
        assert ms[i..][0] == ms[i] && ms[i..][1..] == ms[i + 1..];
        if !ms[i].roleKnown {
          return Some(BadRequest);
        }
        if ms[i].email != "" {
          members := members + {ms[i].email};
        }
      }
      if !permsOk {
        return Some(BadRequest);
      }
      return None;
    }

    /** The dispatcher: whatever the command, the database becomes what the specification says, and stays valid. */
    method Execute(c: Command) returns (e: Option<Error>)
      requires Valid()
      modifies this
      ensures Valid() && (View(), e) == Step(old(View()), c)
    {
      match c
      case OnTask(ref, v, roleOk, now) => e := OnTask(ref, v, roleOk, now);
      case Output(ref, roleOk) => e := OutputTask(ref, roleOk);
      case Create(specs, roleOk, now) => e := CreateTasks(specs, roleOk, now);
      case Refresh(ownerOk, goal, joining, permsOk) => e := RefreshBoard(ownerOk, goal, joining, permsOk);
      case Reopen(roleOk, now) => e := ReopenBoard(roleOk, now);
      case Sweep(now, threshold) =>
        SweepKeepsInv(View(), now, threshold);
        InvReadable(View());
        SweepStale(now, threshold);
        e := None;
    }
  }

  /** Writing a row that is not done over one that is not done leaves the done set alone. */
  lemma SameDone(tasks: Tasks, id: string, t: Task)
    requires id in tasks && tasks[id].status != Done && t.status != Done
    ensures DoneIds(tasks[id := t]) == DoneIds(tasks)
  {
    var w := tasks[id := t];
    forall s | s in DoneIds(tasks) ensures s in DoneIds(w) {
      var x :| x in tasks && tasks[x].status == Done && tasks[x].shortId == s;
      assert w[x].status == Done;
    }
  }

  lemma WriteReadable(db: Db, ref: string, v: RowVerb, roleOk: bool, now: int)
    requires Inv(db) && Find(db.tasks, ref).Some?
    requires Transition(Find(db.tasks, ref).value, v, roleOk, db.members, now).Ok?
    ensures var t := Transition(Find(db.tasks, ref).value, v, roleOk, db.members, now).value;
      Readable(db.tasks[t.id := t])
  {
    InvReadable(db);
    FoundIsStored(db, ref);
    TransitionRewrites(Find(db.tasks, ref).value, v, roleOk, db.members, now);
  }
}
