/** Creating several tasks and refreshing the members: where a batch stops, with which answer, what it leaves. */
module BoardBatches {
  import opened Options
  import opened BoardModel
  import opened BoardSpec
  import opened BoardRuns
  import opened BoardReadiness

  // ── Creating ──────────────────────────────────────────────────────────

  /** An address that is given, but not a member's. */
  predicate Stranger(members: set<string>, who: string) {
    who != "" && who !in members
  }

  predicate NamesStranger(members: set<string>, spec: NewTask) {
    Stranger(members, spec.assignee) || (spec.reviewer.Some? && Stranger(members, spec.reviewer.value))
  }

  /** The leading entries with a member as assignee and no stranger as reviewer. */
  function Leading(members: set<string>, specs: seq<NewTask>): nat {
    if specs == [] || specs[0].assignee == "" || NamesStranger(members, specs[0]) then 0
    else 1 + Leading(members, specs[1..])
  }

  lemma {:induction false} LeadingIs(members: set<string>, specs: seq<NewTask>)
    ensures Leading(members, specs) <= |specs|
    ensures forall i :: 0 <= i < Leading(members, specs) ==>
      specs[i].assignee != "" && !NamesStranger(members, specs[i])
    ensures var k := Leading(members, specs);
      k < |specs| ==> specs[k].assignee == "" || NamesStranger(members, specs[k])
  {
    if specs == [] || specs[0].assignee == "" || NamesStranger(members, specs[0]) {
    } else {
      LeadingIs(members, specs[1..]);
      forall i | 0 < i < Leading(members, specs) ensures specs[i] == specs[1..][i - 1] {}
    }
  }

  lemma CreateOneAnswer(db: Db, spec: NewTask, now: int)
    requires Unspent(db)
    ensures var (s, e) := CreateOne(db, spec, now);
      && (e == Some(BadRequest) <==> NamesStranger(db.members, spec))
      && (e == Some(ConstraintFailed) <==> spec.assignee == "" && !NamesStranger(db.members, spec))
      && (e == None <==> spec.assignee != "" && !NamesStranger(db.members, spec))
      && s.nextVal == db.nextVal + (if e == Some(BadRequest) then 0 else 1)
      && s.members == db.members && s.board == db.board
      && (e == None ==> Unspent(s))
  {
    CreateOneIff(db, spec, now);
    if Admitted(db.members, spec) {
      CreateOneUnspent(db, spec, now);
    }
  }

  /**
   A batch ends at its first entry that names a stranger, or no assignee at all.  Each entry created has spent
   one short id, and so has the one without assignee, which only the foreign key refuses.
   */
  lemma {:induction false} CreateAnswer(db: Db, specs: seq<NewTask>, now: int)
    requires Unspent(db)
    ensures var k, (s, e) := Leading(db.members, specs), CreateAll(db, specs, now);
      && k <= |specs|
      && (e == None <==> k == |specs|)
      && (k < |specs| ==> e == Some(if NamesStranger(db.members, specs[k]) then BadRequest else ConstraintFailed))
      && s.nextVal == db.nextVal + k + (if e == Some(ConstraintFailed) then 1 else 0)
      && s.members == db.members && s.board == db.board
    decreases |specs|
  {
    if specs == [] {
    } else {
      CreateOneAnswer(db, specs[0], now);
      var (db', e) := CreateOne(db, specs[0], now);
      if e.None? {
        CreateAnswer(db', specs[1..], now);
      }
    }
  }

  /** Every answer to a create command; without the role nothing is created and no short id is spent. */
  lemma CreateCommandAnswer(db: Db, specs: seq<NewTask>, roleOk: bool, now: int)
    requires Inv(db)
    ensures var k, (s, e) := Leading(db.members, specs), Step(db, Create(specs, roleOk, now));
      && k <= |specs|
      && (e == Some(Forbidden) <==> !roleOk)
      && (e == None <==> roleOk && k == |specs|)
      && (e == Some(BadRequest) <==> roleOk && k < |specs| && NamesStranger(db.members, specs[k]))
      && (e == Some(ConstraintFailed) <==> roleOk && k < |specs| && !NamesStranger(db.members, specs[k]))
      && (!roleOk ==> s == db)
  {
    InvUnspent(db);
    CreateAnswer(db, specs, now);
  }

  // ── Refreshing ────────────────────────────────────────────────────────

  /** The member listed at `i` is reached: no role up to it is unknown. */
  predicate Joins(joining: seq<NewMember>, i: int, who: string) {
    0 <= i < |joining| && joining[i].email == who && forall j :: 0 <= j <= i ==> joining[j].roleKnown
  }

  /** Exactly the members listed before the first unknown role are added, and an unknown role is the one refusal. */
  lemma {:induction false} JoinsIff(members: set<string>, joining: seq<NewMember>, who: string)
    ensures var (ms, e) := JoinAll(members, joining);
      && (who in ms <==> who in members || (who != "" && exists i :: Joins(joining, i, who)))
      && (e == None <==> forall i :: 0 <= i < |joining| ==> joining[i].roleKnown)
      && (e.Some? ==> e == Some(BadRequest))
    decreases |joining|
  {
    if joining == [] {
    } else if !joining[0].roleKnown {
      assert forall i :: !Joins(joining, i, who);
    } else {
      var head, rest := joining[0], joining[1..];
      JoinsIff(if head.email == "" then members else members + {head.email}, rest, who);
      assert head.email == who <==> Joins(joining, 0, who);
      forall i {:trigger joining[i + 1]} ensures Joins(rest, i, who) <==> i >= 0 && Joins(joining, i + 1, who) {
        ShiftJoins(joining, i, who);
      }
      forall i | Joins(joining, i, who) && i > 0 ensures Joins(rest, i - 1, who) {
        ShiftJoins(joining, i - 1, who);
      }
    }
  }

  lemma ShiftJoins(joining: seq<NewMember>, i: int, who: string)
    requires joining != [] && joining[0].roleKnown
    ensures Joins(joining[1..], i, who) <==> i >= 0 && Joins(joining, i + 1, who)
  {
    var rest := joining[1..];
    if i >= 0 && Joins(joining, i + 1, who) {
      forall j | 0 <= j <= i ensures rest[j].roleKnown {
        assert rest[j] == joining[j + 1];
      }
    }
    if Joins(rest, i, who) {
      forall j | 0 < j <= i + 1 ensures joining[j].roleKnown {
        assert joining[j] == rest[j - 1];
      }
    }
  }

  /** Every answer to a refresh, and what it leaves: even a refused one of the owner reactivates the board. */
  lemma RefreshAnswer(
      db: Db, ownerOk: bool, goal: Option<string>, joining: Option<seq<NewMember>>, permsOk: bool, who: string)
    ensures var (s, e) := RefreshStep(db, ownerOk, goal, joining, permsOk);
      && (e == Some(Forbidden) <==> !ownerOk)
      && (e == None <==>
            ownerOk && joining.Some? && permsOk
            && forall i :: 0 <= i < |joining.value| ==> joining.value[i].roleKnown)
      && (e.Some? && ownerOk ==> e == Some(BadRequest))
      && (!ownerOk ==> s == db)
      && (ownerOk ==>
            && s.board == db.board.(status := Active, goal := if goal == None then db.board.goal else goal)
            && (who in s.members <==>
                  who in db.members || (who != "" && joining.Some? && exists i :: Joins(joining.value, i, who))))
      && s.tasks == db.tasks && s.nextVal == db.nextVal && s.boardId == db.boardId
  {
    if joining.Some? {
      JoinsIff(db.members, joining.value, who);
    }
  }
}
