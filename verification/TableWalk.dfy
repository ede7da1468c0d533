/** Walking over a keyed table in an arbitrary listing order, rewriting one row at a time. */
module TableWalk {

  /** `ids` lists the keys of the table: each once, in some order. */
  ghost predicate Enumerates<T>(ids: seq<string>, table: map<string, T>) {
    && (forall i :: 0 <= i < |ids| ==> ids[i] in table)
    && (forall i, j :: 0 <= i < j < |ids| ==> ids[i] != ids[j])
    && (forall id :: id in table ==> id in ids)
  }

  /** The table after the first `n` listed rows have been replaced by those of `target`. */
  ghost function WalkTo<T>(table: map<string, T>, ids: seq<string>, target: map<string, T>, n: nat): map<string, T>
    requires n <= |ids| && Enumerates(ids, table) && target.Keys == table.Keys
  {
    if n == 0 then table else WalkTo(table, ids, target, n - 1)[ids[n - 1] := target[ids[n - 1]]]
  }

  lemma {:induction false} WalkPoint<T>(table: map<string, T>, ids: seq<string>, target: map<string, T>, n: nat)
    requires n <= |ids| && Enumerates(ids, table) && target.Keys == table.Keys
    ensures WalkTo(table, ids, target, n).Keys == table.Keys
    ensures forall j :: 0 <= j < |ids| ==>
      WalkTo(table, ids, target, n)[ids[j]] == if j < n then target[ids[j]] else table[ids[j]]
  {
    if n == 0 {
    } else {
      WalkPoint(table, ids, target, n - 1);
    }
  }

  /** `current` is where the walk from `table` to `target` stands after `n` listed rows. */
  ghost predicate Walking<T>(
      current: map<string, T>, table: map<string, T>, ids: seq<string>, target: map<string, T>, n: nat)
  {
    n <= |ids| && Enumerates(ids, table) && target.Keys == table.Keys && current == WalkTo(table, ids, target, n)
  }

  lemma WalkWrite<T>(
      current: map<string, T>, table: map<string, T>, ids: seq<string>, target: map<string, T>, n: nat, row: T)
    requires Walking(current, table, ids, target, n) && n < |ids| && target[ids[n]] == row
    ensures Walking(current[ids[n] := row], table, ids, target, n + 1)
  {
  }

  /** A row that stays as it is need not be written. */
  lemma WalkSkip<T>(current: map<string, T>, table: map<string, T>, ids: seq<string>, target: map<string, T>, n: nat)
    requires Walking(current, table, ids, target, n) && n < |ids| && target[ids[n]] == table[ids[n]]
    ensures Walking(current, table, ids, target, n + 1)
  {
    WalkPoint(table, ids, target, n);
  }

  /** Whatever the listing order, the whole walk produces the target. */
  lemma WalkAll<T>(current: map<string, T>, table: map<string, T>, ids: seq<string>, target: map<string, T>)
    requires Walking(current, table, ids, target, |ids|)
    ensures current == target
  {
    WalkPoint(table, ids, target, |ids|);
    forall id | id in table ensures current[id] == target[id] {
      var j :| 0 <= j < |ids| && ids[j] == id;
    }
  }
}
