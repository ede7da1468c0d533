/** Rows of one board database, task ids, and the status text stored with a task. */
module BoardModel {
  import opened Options

  datatype TaskStatus = Triage | Todo | Ready | Running | Reviewing | Done | Blocked | Cancelled | Archived

  function StatusText(s: TaskStatus): string {
    match s
    case Triage => "triage"
    case Todo => "todo"
    case Ready => "ready"
    case Running => "running"
    case Reviewing => "reviewing"
    case Done => "done"
    case Blocked => "blocked"
    case Cancelled => "cancelled"
    case Archived => "archived"
  }

  /** Reading a stored status: every text not listed reads back as Todo. */
  function ParseTaskStatus(s: string): TaskStatus {
    if s == "ready" then Ready
    else if s == "running" then Running
    else if s == "reviewing" then Reviewing
    else if s == "done" then Done
    else if s == "blocked" then Blocked
    else if s == "cancelled" then Cancelled
    else Todo
  }

  /** The stored text survives a read exactly for the statuses other than Triage and Archived. */
  lemma StatusRoundTripIff(s: TaskStatus)
    ensures ParseTaskStatus(StatusText(s)) == s <==> s != Triage && s != Archived
    ensures ParseTaskStatus(StatusText(s)) != s ==> ParseTaskStatus(StatusText(s)) == Todo
  {
  }

  datatype Task = Task(
    id: string, shortId: string, title: string, body: string, status: TaskStatus,
    assignee: string, reviewer: Option<string>, parentIds: seq<string>, summary: string,
    updatedAt: int, completedAt: Option<int>, cancelledAt: Option<int>, deadline: Option<string>)

  datatype BoardStatus = Active | AwaitingOwner | Completed | BoardArchived | Frozen

  datatype BoardRow = BoardRow(
    status: BoardStatus, goal: Option<string>, outputTaskId: Option<string>,
    planVersion: Option<string>, criteriaVersion: Option<string>)

  /** One board's database file.  `nextVal` is the short-id counter, 0 before its first use. */
  datatype Db = Db(boardId: string, board: BoardRow, members: set<string>, tasks: map<string, Task>, nextVal: nat)

  // ── Task ids ──────────────────────────────────────────────────────────

  function Decimal(n: nat): (s: string)
    ensures |s| > 0
  {
    if n < 10 then [('0' as int + n) as char] else Decimal(n / 10) + [('0' as int + n % 10) as char]
  }

  function DecimalValue(s: string): int {
    if s == [] then 0 else DecimalValue(s[..|s| - 1]) * 10 + (s[|s| - 1] as int - '0' as int)
  }

  lemma {:induction false} DecimalRoundTrip(n: nat)
    ensures DecimalValue(Decimal(n)) == n
  {
    if n >= 10 {
      DecimalRoundTrip(n / 10);
      var s := Decimal(n);
      assert s[..|s| - 1] == Decimal(n / 10);
    } else {
      assert Decimal(n)[..0] == [];
    }
  }

  function ShortId(n: nat): string {
    "T" + Decimal(n)
  }

  /** `t_{short}_{first eight of the board id}`; the gateway's board ids are 20 hex digits. */
  function MakeTaskId(boardId: string, shortId: string): string
    requires |boardId| >= 8
  {
    "t_" + shortId + "_" + boardId[..8]
  }

  lemma ShortIdInjective(m: nat, n: nat)
    requires ShortId(m) == ShortId(n)
    ensures m == n
  {
    assert Decimal(m) == ShortId(m)[1..] == ShortId(n)[1..] == Decimal(n);
    DecimalRoundTrip(m);
    DecimalRoundTrip(n);
  }

  lemma TaskIdInjective(boardId: string, a: string, b: string)
    requires |boardId| >= 8 && MakeTaskId(boardId, a) == MakeTaskId(boardId, b)
    ensures a == b
  {
    var x, y := MakeTaskId(boardId, a), MakeTaskId(boardId, b);
    assert a == x[2..|x| - 9] && b == y[2..|y| - 9];
  }

  /** A full id is never a short id: they differ in their first letter. */
  lemma IdsDisjoint(boardId: string, a: string, n: nat)
    requires |boardId| >= 8
    ensures MakeTaskId(boardId, a) != ShortId(n)
  {
    assert MakeTaskId(boardId, a)[0] == 't' && ShortId(n)[0] == 'T';
  }
}
