/**
 The one-way migration of plan-billing rows from `subscriptions` to
 `tenant_subscriptions` (backend/scripts/migrate-tenant-subscriptions.js). A run
 may stop after any number of database operations; whatever it left behind is
 where the next run starts.
 */
module TenantMigration {
  import opened Wrappers
  import JsMap
  import Sorting

  /** `planCode` is the billing discriminator; `rest` is every other field. */
  datatype Row = Row(tenantId: string, planCode: Option<string>, status: string, rest: string)

  datatype Db = Db(source: JsMap.Map<string, Row>, target: map<string, Row>)

  /** What reads back from the target after inserting a row, if anything does. */
  type Persist = Row -> Option<Row>

  datatype Outcome = Moved | Skipped | VerifyFailed | InsertFailed | Crashed

  /** How a run ended. */
  datatype Exit = Done(moved: nat, skipped: nat) | Aborted(outcome: Outcome)

  predicate Billing(row: Row) { row.planCode.Some? }

  predicate Agree(copy: Row, row: Row) {
    copy.tenantId == row.tenantId && copy.planCode == row.planCode && copy.status == row.status
  }

  /** The target's partial unique index: one trial, active or past-due row of a status per tenant. */
  predicate Conflicts(target: map<string, Row>, row: Row) {
    row.status in {"trial", "active", "past_due"}
    && exists id :: id in target && target[id].tenantId == row.tenantId && target[id].status == row.status
  }

  // ---------------------------------------------------------------- one row

  /** `ops` is how many more database operations run before the crash. */
  function MoveRow(db: Db, persist: Persist, id: string, row: Row, ops: nat): (Db, Outcome, nat) {
    if ops == 0 then (db, Crashed, 0)
    else if id in db.target then (db, Skipped, ops - 1)
    else if ops == 1 then (db, Crashed, 0)
    else if Conflicts(db.target, row) then (db, InsertFailed, ops - 2)
    else
      var db1 := db.(target := Stored(db.target, persist, id, row));
      if ops == 2 then (db1, Crashed, 0)
      else if !(id in db1.target && Agree(db1.target[id], row)) then (db1, VerifyFailed, ops - 3)
      else if ops == 3 then (db1, Crashed, 0)
      else (db1.(source := JsMap.Delete(db.source, id)), Moved, ops - 4)
  }

  function Stored(target: map<string, Row>, persist: Persist, id: string, row: Row): map<string, Row> {
    match persist(row)
    case None => target
    case Some(back) => target[id := back]
  }

  // ---------------------------------------------------------------- a run

  function BillingRows(source: JsMap.Map<string, Row>, keys: seq<string>): (rows: seq<(string, Row)>)
    requires forall k :: k in keys ==> k in source.entries
  {
    if keys == [] then []
    else
      assert keys == [keys[0]] + keys[1..];
      var rest := BillingRows(source, keys[1..]);
      if Billing(source.entries[keys[0]]) then [(keys[0], source.entries[keys[0]])] + rest else rest
  }

  function MoveAll(db: Db, persist: Persist, rows: seq<(string, Row)>, ops: nat, moved: nat, skipped: nat): (Db, Exit)
    decreases |rows|
  {
    if rows == [] then (db, Done(moved, skipped))
    else
      var (db', outcome, left) := MoveRow(db, persist, rows[0].0, rows[0].1, ops);
      match outcome
      case Moved => MoveAll(db', persist, rows[1..], left, moved + 1, skipped)
      case Skipped => MoveAll(db', persist, rows[1..], left, moved, skipped + 1)
      case _ => (db', Aborted(outcome))
  }

  function Run(db: Db, persist: Persist, ops: nat): (Db, Exit) {
    MoveAll(db, persist, BillingRows(db.source, db.source.order), ops, 0, 0)
  }

  /** Any number of runs, each stopping where its budget says. */
  function Runs(db: Db, persist: Persist, budgets: seq<nat>): Db
    decreases |budgets|
  {
    if budgets == [] then db else Runs(Run(db, persist, budgets[0]).0, persist, budgets[1..])
  }

  class Migration {
    var source: JsMap.Map<string, Row>
    var target: map<string, Row>
    const persist: Persist

    constructor (source: JsMap.Map<string, Row>, target: map<string, Row>, persist: Persist)
      ensures this.source == source && this.target == target && this.persist == persist
    {
      this.source := source;
      this.target := target;
      this.persist := persist;
    }

    function View(): Db reads this { Db(source, target) }

    method Move(id: string, row: Row, ops: nat) returns (outcome: Outcome, left: nat)
      modifies this
      ensures (View(), outcome, left) == MoveRow(old(View()), persist, id, row, ops)
    {
      left := ops;
      if left == 0 { return Crashed, 0; }
      left := left - 1;
      var already := id in target;
      if already { return Skipped, left; }
      if left == 0 { return Crashed, 0; }
      left := left - 1;
      if Conflicts(target, row) { return InsertFailed, left; }
      var copy := persist(row);
      if copy.Some? { target := target[id := copy.value]; }
      if left == 0 { return Crashed, 0; }
      left := left - 1;
      if id !in target || target[id].tenantId != row.tenantId
         || target[id].planCode != row.planCode || target[id].status != row.status
      {
        return VerifyFailed, left;
      }
      if left == 0 { return Crashed, 0; }
      left := left - 1;
      source := JsMap.Delete(source, id);
      return Moved, left;
    }

    /** `main`, with and without `--apply`. */
    method Execute(apply: bool, ops: nat) returns (exit: Exit)
      modifies this
      ensures !apply ==> unchanged(this)
      ensures apply ==> (View(), exit) == Run(old(View()), persist, ops)
    {
      var rows := BillingRows(source, source.order);
      var moved, skipped, left := 0, 0, ops;
      if !apply { return Done(0, 0); }
      var i := 0;
      while i < |rows|
        invariant 0 <= i <= |rows|
        invariant MoveAll(View(), persist, rows[i..], left, moved, skipped) == Run(old(View()), persist, ops)
      {
        var outcome;
        assert rows[i..][1..] == rows[i + 1..] && rows[i..][0] == rows[i];
        outcome, left := Move(rows[i].0, rows[i].1, left);
        if outcome != Moved && outcome != Skipped { return Aborted(outcome); }
        if outcome == Moved { moved := moved + 1; } else { skipped := skipped + 1; }
        i := i + 1;
      }
      return Done(moved, skipped);
    }
  }

  // ---------------------------------------------------------------- what every step keeps

  ghost function Ids(db: Db): set<string> { db.source.entries.Keys + db.target.Keys }

  /** `b` was reached from `a` by safe steps: nothing lost, nothing foreign touched. */
  ghost predicate Reaches(a: Db, b: Db) {
    && Ids(b) == Ids(a)
    && (forall id :: id in b.source.entries ==>
          id in a.source.entries && b.source.entries[id] == a.source.entries[id])
    && (forall id :: id in a.target ==> id in b.target && b.target[id] == a.target[id])
    && (forall id :: id in a.source.entries && id !in b.source.entries ==>
          Billing(a.source.entries[id]) && id in b.target && Agree(b.target[id], a.source.entries[id]))
    && (forall id :: id in b.target && id !in a.target ==>
          id in a.source.entries && Billing(a.source.entries[id]))
    && (forall id :: id in a.source.entries && id in a.target ==> id in b.source.entries)
  }

  lemma ReachesRefl(a: Db)
    ensures Reaches(a, a)
  {
  }

  lemma ReachesTransitive(a: Db, b: Db, c: Db)
    requires Reaches(a, b) && Reaches(b, c)
    ensures Reaches(a, c)
  {
  }

  /** The rows still to do are in the source as they were read, each once. */
  ghost predicate Waiting(db: Db, rows: seq<(string, Row)>) {
    && (forall i :: 0 <= i < |rows| ==>
          rows[i].0 in db.source.entries && db.source.entries[rows[i].0] == rows[i].1 && Billing(rows[i].1))
    && (forall i, j :: 0 <= i < j < |rows| ==> rows[i].0 != rows[j].0)
  }

  lemma MoveRowIsSafe(db: Db, persist: Persist, id: string, row: Row, ops: nat)
    requires id in db.source.entries && db.source.entries[id] == row && Billing(row)
    ensures Reaches(db, MoveRow(db, persist, id, row, ops).0)
    ensures forall k :: k in db.source.entries && k != id ==>
              k in MoveRow(db, persist, id, row, ops).0.source.entries
    ensures var (db', outcome, _) := MoveRow(db, persist, id, row, ops);
            && (outcome == Moved ==> id !in db.target && id in db'.target && id !in db'.source.entries)
            && (outcome == Skipped ==> id in db.target && db' == db)
  {
    hide Conflicts, JsMap.Without;
    var (db', outcome, _) := MoveRow(db, persist, id, row, ops);
    var db1 := Db(db.source, Stored(db.target, persist, id, row));
    ReachesRefl(db);
    if id !in db.target && db' != db {
      InsertIsSafe(db, persist, id, row);
      if outcome == Moved { MoveIsSafe(db, id, db'.target[id]); }
    }
  }

  lemma InsertIsSafe(db: Db, persist: Persist, id: string, row: Row)
    requires id in db.source.entries && db.source.entries[id] == row && Billing(row) && id !in db.target
    ensures Reaches(db, Db(db.source, Stored(db.target, persist, id, row)))
  {
    var db1 := Db(db.source, Stored(db.target, persist, id, row));
    assert Ids(db1) == Ids(db);
  }

  lemma MoveIsSafe(db: Db, id: string, copy: Row)
    requires id in db.source.entries && Billing(db.source.entries[id]) && id !in db.target
    requires Agree(copy, db.source.entries[id])
    ensures Reaches(db, Db(JsMap.Delete(db.source, id), db.target[id := copy]))
  {
    hide JsMap.Delete, JsMap.Without;
    var db1 := Db(JsMap.Delete(db.source, id), db.target[id := copy]);
    assert db1.source.entries.Keys == db.source.entries.Keys - {id};
    assert db1.target.Keys == db.target.Keys + {id};
    assert Ids(db1) == Ids(db);
    hide Ids;
  }

  lemma {:induction false} MoveAllIsSafe(db: Db, persist: Persist, rows: seq<(string, Row)>, ops: nat, m: nat, k: nat)
    requires Waiting(db, rows)
    ensures Reaches(db, MoveAll(db, persist, rows, ops, m, k).0)
    decreases |rows|
  {
    if rows != [] {
      var (db', outcome, left) := MoveRow(db, persist, rows[0].0, rows[0].1, ops);
      MoveRowIsSafe(db, persist, rows[0].0, rows[0].1, ops);
      hide MoveRow;
      if outcome == Moved || outcome == Skipped {
        WaitingRest(db, db', rows);
        var (m', k') := if outcome == Moved then (m + 1, k) else (m, k + 1);
        MoveAllIsSafe(db', persist, rows[1..], left, m', k');
        hide Reaches;
        ReachesTransitive(db, db', MoveAll(db', persist, rows[1..], left, m', k').0);
      }
    }
  }

  lemma WaitingRest(db: Db, db': Db, rows: seq<(string, Row)>)
    requires rows != [] && Waiting(db, rows) && Reaches(db, db')
    requires forall k :: k in db.source.entries && k != rows[0].0 ==> k in db'.source.entries
    ensures Waiting(db', rows[1..])
  {
    forall i | 0 <= i < |rows[1..]|
      ensures var (id, row) := rows[1..][i];
              id in db'.source.entries && db'.source.entries[id] == row && Billing(row)
    {
      assert rows[1..][i] == rows[i + 1];
    }
    forall i, j | 0 <= i < j < |rows[1..]| ensures rows[1..][i].0 != rows[1..][j].0 {
      assert rows[1..][i] == rows[i + 1] && rows[1..][j] == rows[j + 1];
    }
  }

  /** Billing rows of `keys` as the source holds them, each once. */
  ghost predicate Listed(source: JsMap.Map<string, Row>, keys: seq<string>, rows: seq<(string, Row)>) {
    && (forall i :: 0 <= i < |rows| ==>
          && rows[i].0 in keys && rows[i].0 in source.entries
          && source.entries[rows[i].0] == rows[i].1 && Billing(rows[i].1))
    && (forall i, j :: 0 <= i < j < |rows| ==> rows[i].0 != rows[j].0)
  }

  lemma {:induction false} BillingRowsAre(source: JsMap.Map<string, Row>, keys: seq<string>)
    requires forall k :: k in keys ==> k in source.entries
    requires Sorting.NoDup(keys)
    ensures Listed(source, keys, BillingRows(source, keys))
  {
    if keys != [] {
      assert keys == [keys[0]] + keys[1..];
      assert Sorting.NoDup(keys[1..]) && keys[0] !in keys[1..];
      BillingRowsAre(source, keys[1..]);
      ListedCons(source, keys[0], keys[1..], BillingRows(source, keys[1..]));
    }
  }

  lemma ListedCons(source: JsMap.Map<string, Row>, k: string, keys: seq<string>, rows: seq<(string, Row)>)
    requires Listed(source, keys, rows) && k in source.entries && k !in keys
    ensures Listed(source, [k] + keys, rows)
    ensures Billing(source.entries[k]) ==> Listed(source, [k] + keys, [(k, source.entries[k])] + rows)
  {
    assert forall x :: x in [k] + keys <==> x == k || x in keys;
  }

  lemma {:induction false} BillingRowsHold(source: JsMap.Map<string, Row>, keys: seq<string>, k: string)
    requires forall j :: j in keys ==> j in source.entries
    requires k in keys && Billing(source.entries[k])
    ensures (k, source.entries[k]) in BillingRows(source, keys)
  {
    assert keys == [keys[0]] + keys[1..];
    if k == keys[0] {
      assert BillingRows(source, keys)[0] == (k, source.entries[k]);
    } else {
      BillingRowsHold(source, keys[1..], k);
    }
  }

  lemma SourceWaits(db: Db)
    ensures Waiting(db, BillingRows(db.source, db.source.order))
  {
    BillingRowsAre(db.source, db.source.order);
  }

  lemma RunIsSafe(db: Db, persist: Persist, ops: nat)
    ensures Reaches(db, Run(db, persist, ops).0)
  {
    SourceWaits(db);
    MoveAllIsSafe(db, persist, BillingRows(db.source, db.source.order), ops, 0, 0);
  }

  /**
   Crash safety. Whatever runs were started and wherever each of them stopped: no id is
   lost or invented, customer rows stay as they are, a row has left the source only if
   the target agrees with it on tenant, plan and status, and no target row was altered.
   */
  lemma {:induction false} RunsAreSafe(db: Db, persist: Persist, budgets: seq<nat>)
    ensures Reaches(db, Runs(db, persist, budgets))
    ensures var end := Runs(db, persist, budgets);
            forall id :: id in db.source.entries && id !in end.source.entries ==>
              var (row, copy) := (db.source.entries[id], if id in end.target then Some(end.target[id]) else None);
              && row.planCode.Some? && copy.Some? && copy.value.tenantId == row.tenantId
              && copy.value.planCode == row.planCode && copy.value.status == row.status
    decreases |budgets|
  {
    hide Reaches, Run;
    if budgets == [] {
      ReachesRefl(db);
    } else {
      var next := Run(db, persist, budgets[0]).0;
      RunIsSafe(db, persist, budgets[0]);
      RunsAreSafe(next, persist, budgets[1..]);
      ReachesTransitive(db, next, Runs(next, persist, budgets[1..]));
    }
    GoneHasCopy(db, Runs(db, persist, budgets));
  }

  lemma GoneHasCopy(db: Db, end: Db)
    requires Reaches(db, end)
    ensures forall id :: id in db.source.entries && id !in end.source.entries ==>
              var (row, copy) := (db.source.entries[id], if id in end.target then Some(end.target[id]) else None);
              && row.planCode.Some? && copy.Some? && copy.value.tenantId == row.tenantId
              && copy.value.planCode == row.planCode && copy.value.status == row.status
  {
  }

  // ---------------------------------------------------------------- completed runs

  /** The exit a completed run reports: rows the target had are skipped, the others moved. */
  ghost function Tally(moved: nat, skipped: nat, rows: seq<(string, Row)>, target: map<string, Row>): Exit
    decreases |rows|
  {
    if rows == [] then Done(moved, skipped)
    else if rows[0].0 in target then Tally(moved, skipped + 1, rows[1..], target)
    else Tally(moved + 1, skipped, rows[1..], target)
  }

  /** A run that got through moved exactly the rows the target did not already have. */
  ghost predicate Finished(rows: seq<(string, Row)>, target: map<string, Row>, end: Db) {
    forall i :: 0 <= i < |rows| ==>
      rows[i].0 in end.target && (rows[i].0 in end.source.entries <==> rows[i].0 in target)
  }

  lemma {:induction false} CompletedMoves(db: Db, persist: Persist, rows: seq<(string, Row)>, ops: nat, m: nat, k: nat)
    requires Waiting(db, rows) && MoveAll(db, persist, rows, ops, m, k).1.Done?
    ensures Finished(rows, db.target, MoveAll(db, persist, rows, ops, m, k).0)
    decreases |rows|
  {
    if rows != [] {
      var (db', outcome, left) := MoveRow(db, persist, rows[0].0, rows[0].1, ops);
      MoveRowIsSafe(db, persist, rows[0].0, rows[0].1, ops);
      TargetElsewhere(db, persist, rows[0].0, rows[0].1, ops);
      var (m', k') := if outcome == Moved then (m + 1, k) else (m, k + 1);
      var end := MoveAll(db', persist, rows[1..], left, m', k').0;
      assert end == MoveAll(db, persist, rows, ops, m, k).0;
      assert outcome == Moved || outcome == Skipped;
      hide MoveRow, MoveAll;
      WaitingRest(db, db', rows);
      CompletedMoves(db', persist, rows[1..], left, m', k');
      MoveAllIsSafe(db', persist, rows[1..], left, m', k');
      FinishedCons(db, db', rows, end);
    }
  }

  lemma FinishedCons(db: Db, db': Db, rows: seq<(string, Row)>, end: Db)
    requires rows != [] && Waiting(db, rows) && Reaches(db, db') && Reaches(db', end)
    requires Finished(rows[1..], db'.target, end)
    requires forall k :: k != rows[0].0 ==> (k in db'.target <==> k in db.target)
    requires if rows[0].0 in db.target then db' == db
             else rows[0].0 in db'.target && rows[0].0 !in db'.source.entries
    ensures Finished(rows, db.target, end)
  {
    forall i | 0 <= i < |rows|
      ensures rows[i].0 in end.target && (rows[i].0 in end.source.entries <==> rows[i].0 in db.target)
    {
      if i > 0 { assert rows[1..][i - 1] == rows[i]; }
    }
  }

  /** The printed counts. */
  lemma {:induction false} CompletedCounts(db: Db, persist: Persist, rows: seq<(string, Row)>, ops: nat, m: nat, k: nat)
    requires Waiting(db, rows) && MoveAll(db, persist, rows, ops, m, k).1.Done?
    ensures MoveAll(db, persist, rows, ops, m, k).1 == Tally(m, k, rows, db.target)
    decreases |rows|
  {
    if rows != [] {
      var (db', outcome, left) := MoveRow(db, persist, rows[0].0, rows[0].1, ops);
      MoveRowIsSafe(db, persist, rows[0].0, rows[0].1, ops);
      TargetElsewhere(db, persist, rows[0].0, rows[0].1, ops);
      var (m', k') := if outcome == Moved then (m + 1, k) else (m, k + 1);
      assert outcome == Moved || outcome == Skipped;
      assert MoveAll(db, persist, rows, ops, m, k).1 == MoveAll(db', persist, rows[1..], left, m', k').1;
      assert Tally(m, k, rows, db.target) == Tally(m', k', rows[1..], db.target);
      WaitingRest(db, db', rows);
      hide MoveRow, MoveAll, Tally, Reaches;
      CompletedCounts(db', persist, rows[1..], left, m', k');
      forall i | 0 <= i < |rows[1..]| ensures rows[1..][i].0 in db'.target <==> rows[1..][i].0 in db.target {
        assert rows[1..][i] == rows[i + 1] && rows[0].0 != rows[i + 1].0;
      }
      TallyAgrees(m', k', rows[1..], db'.target, db.target);
    }
  }

  lemma TargetElsewhere(db: Db, persist: Persist, id: string, row: Row, ops: nat)
    ensures forall k :: k != id ==> (k in MoveRow(db, persist, id, row, ops).0.target <==> k in db.target)
  {
  }

  lemma {:induction false} TallyAgrees(m: nat, k: nat, rows: seq<(string, Row)>,
                                           a: map<string, Row>, b: map<string, Row>)
    requires forall i :: 0 <= i < |rows| ==> (rows[i].0 in a <==> rows[i].0 in b)
    ensures Tally(m, k, rows, a) == Tally(m, k, rows, b)
    decreases |rows|
  {
    if rows != [] {
      assert forall i :: 0 <= i < |rows[1..]| ==> rows[1..][i] == rows[i + 1];
      if rows[0].0 in a { TallyAgrees(m, k + 1, rows[1..], a, b); } else { TallyAgrees(m + 1, k, rows[1..], a, b); }
    }
  }

  /** A completed run counts right, and leaves behind the billing rows whose id the target already had. */
  lemma CompletedRunLeaves(db: Db, persist: Persist, ops: nat)
    requires Run(db, persist, ops).1.Done?
    ensures Run(db, persist, ops).1 == Tally(0, 0, BillingRows(db.source, db.source.order), db.target)
    ensures var db' := Run(db, persist, ops).0;
            forall id :: id in db.source.entries && Billing(db.source.entries[id]) ==>
              && id in db'.target
              && (id in db'.source.entries <==> id in db.target)
  {
    var rows := BillingRows(db.source, db.source.order);
    BillingRowsAre(db.source, db.source.order);
    SourceWaits(db);
    CompletedMoves(db, persist, rows, ops, 0, 0);
    CompletedCounts(db, persist, rows, ops, 0, 0);
    var db' := Run(db, persist, ops).0;
    forall id | id in db.source.entries && Billing(db.source.entries[id])
      ensures id in db'.target && (id in db'.source.entries <==> id in db.target)
    {
      assert id in db.source.order;
      BillingRowsHold(db.source, db.source.order, id);
      var i :| 0 <= i < |rows| && rows[i] == (id, db.source.entries[id]);
    }
  }

  /** A completed run empties the source of billing rows exactly when none of them was in the target before. */
  lemma CompletedRunClearsIff(db: Db, persist: Persist, ops: nat)
    requires Run(db, persist, ops).1.Done?
    ensures var db' := Run(db, persist, ops).0;
            (forall id :: id in db'.source.entries ==> !Billing(db'.source.entries[id]))
            <==> (forall id :: id in db.source.entries && Billing(db.source.entries[id]) ==> id !in db.target)
  {
    CompletedRunLeaves(db, persist, ops);
    RunIsSafe(db, persist, ops);
    hide Run;
  }

  lemma {:induction false} NothingToMove(db: Db, persist: Persist, rows: seq<(string, Row)>, ops: nat, m: nat, k: nat)
    requires forall i :: 0 <= i < |rows| ==> rows[i].0 in db.target
    ensures MoveAll(db, persist, rows, ops, m, k).0 == db
    decreases |rows|
  {
    if rows != [] {
      assert forall i :: 0 <= i < |rows[1..]| ==> rows[1..][i] == rows[i + 1];
      if ops > 0 { NothingToMove(db, persist, rows[1..], ops - 1, m, k + 1); }
    }
  }

  /** After a completed run, further runs write nothing, however they end. */
  lemma {:induction false} CompletedIsFinal(db: Db, persist: Persist, ops: nat, budgets: seq<nat>)
    requires Run(db, persist, ops).1.Done?
    ensures Runs(Run(db, persist, ops).0, persist, budgets) == Run(db, persist, ops).0
  {
    CompletedRunLeaves(db, persist, ops);
    RunIsSafe(db, persist, ops);
    var end := Run(db, persist, ops).0;
    assert forall id :: id in end.source.entries && Billing(end.source.entries[id]) ==> id in end.target;
    hide Run;
    SettledStays(end, persist, budgets);
  }

  lemma {:induction false} SettledStays(db: Db, persist: Persist, budgets: seq<nat>)
    requires forall id :: id in db.source.entries && Billing(db.source.entries[id]) ==> id in db.target
    ensures Runs(db, persist, budgets) == db
    decreases |budgets|
  {
    if budgets != [] {
      var rows := BillingRows(db.source, db.source.order);
      SourceWaits(db);
      NothingToMove(db, persist, rows, budgets[0], 0, 0);
      SettledStays(db, persist, budgets[1..]);
    }
  }

  /** A row the run did insert but not yet delete: no later run ever removes it from the source. */
  lemma CrashAfterInsertStays(db: Db, persist: Persist, id: string, row: Row, ops: nat, budgets: seq<nat>)
    requires id in db.source.entries && db.source.entries[id] == row && Billing(row)
    requires id !in db.target && !Conflicts(db.target, row) && persist(row).Some?
    requires ops == 2 || ops == 3
    ensures var crashed := MoveRow(db, persist, id, row, ops);
            && (crashed.1 == Crashed || crashed.1 == VerifyFailed)
            && id in Runs(crashed.0, persist, budgets).source.entries
            && id in Runs(crashed.0, persist, budgets).target
  {
    var crashed := MoveRow(db, persist, id, row, ops);
    assert id in crashed.0.source.entries && id in crashed.0.target;
    RunsAreSafe(crashed.0, persist, budgets);
  }

  predicate Faithful(row: Row, persist: Persist) { persist(row) == Some(row) }

  /** A target that keeps what it is given never fails verification. */
  lemma {:induction false} FaithfulNeverFailsVerify(db: Db, persist: Persist, rows: seq<(string, Row)>,
                                                        ops: nat, m: nat, k: nat)
    requires forall row :: Faithful(row, persist)
    ensures MoveAll(db, persist, rows, ops, m, k).1 != Aborted(VerifyFailed)
    decreases |rows|
  {
    if rows != [] {
      assert Faithful(rows[0].1, persist);
      var (db', outcome, left) := MoveRow(db, persist, rows[0].0, rows[0].1, ops);
      if outcome == Moved {
        FaithfulNeverFailsVerify(db', persist, rows[1..], left, m + 1, k);
      } else if outcome == Skipped {
        FaithfulNeverFailsVerify(db', persist, rows[1..], left, m, k + 1);
      }
    }
  }

  // ---------------------------------------------------------------- the target's unique index

  /** A billing row that no insert can bring into the target. */
  ghost predicate Stuck(db: Db, id: string, row: Row) {
    && id in db.source.entries && db.source.entries[id] == row && Billing(row)
    && id !in db.target && Conflicts(db.target, row)
  }

  lemma ConflictStays(a: map<string, Row>, b: map<string, Row>, row: Row)
    requires Conflicts(a, row) && forall id :: id in a ==> id in b && b[id] == a[id]
    ensures Conflicts(b, row)
  {
    var id :| id in a && a[id].tenantId == row.tenantId && a[id].status == row.status;
    assert id in b;
  }

  lemma {:induction false} MoveAllStuck(db: Db, persist: Persist, rows: seq<(string, Row)>, ops: nat, m: nat, k: nat,
                                        id: string, row: Row)
    requires Waiting(db, rows) && Stuck(db, id, row)
    ensures Stuck(MoveAll(db, persist, rows, ops, m, k).0, id, row)
    decreases |rows|
  {
    if rows != [] {
      var (db', outcome, left) := MoveRow(db, persist, rows[0].0, rows[0].1, ops);
      MoveRowIsSafe(db, persist, rows[0].0, rows[0].1, ops);
      TargetElsewhere(db, persist, rows[0].0, rows[0].1, ops);
      ConflictStays(db.target, db'.target, row);
      assert Stuck(db', id, row);
      hide MoveRow, Stuck;
      if outcome == Moved || outcome == Skipped {
        WaitingRest(db, db', rows);
        var (m', k') := if outcome == Moved then (m + 1, k) else (m, k + 1);
        MoveAllStuck(db', persist, rows[1..], left, m', k', id, row);
      }
    }
  }

  lemma RunStuck(db: Db, persist: Persist, ops: nat, id: string, row: Row)
    requires Stuck(db, id, row)
    ensures Stuck(Run(db, persist, ops).0, id, row) && !Run(db, persist, ops).1.Done?
  {
    SourceWaits(db);
    MoveAllStuck(db, persist, BillingRows(db.source, db.source.order), ops, 0, 0, id, row);
    hide Run;
    if Run(db, persist, ops).1.Done? { CompletedRunLeaves(db, persist, ops); }
  }

  /**
   A billing row whose tenant already has a target row of the same live status keeps every run
   from completing, wherever the runs before it stopped and whatever the target keeps.
   */
  lemma {:induction false} ConflictBlocksEveryRun(db: Db, persist: Persist, budgets: seq<nat>, ops: nat,
                                                  id: string, row: Row)
    requires Stuck(db, id, row)
    ensures !Run(Runs(db, persist, budgets), persist, ops).1.Done?
    ensures Stuck(Runs(db, persist, budgets), id, row)
    decreases |budgets|
  {
    hide Run, Stuck;
    if budgets == [] {
      RunStuck(db, persist, ops, id, row);
    } else {
      RunStuck(db, persist, budgets[0], id, row);
      ConflictBlocksEveryRun(Run(db, persist, budgets[0]).0, persist, budgets[1..], ops, id, row);
    }
  }

  /** Two rows the index does not let into the target together. */
  predicate Rivals(a: Row, b: Row) {
    a.status in {"trial", "active", "past_due"} && a.tenantId == b.tenantId && a.status == b.status
  }

  predicate Pending(db: Db, id: string) {
    id in db.source.entries && Billing(db.source.entries[id]) && id !in db.target
  }

  /** The target has room for every billing row it lacks. */
  ghost predicate Fits(db: Db) {
    && (forall id :: Pending(db, id) ==> !Conflicts(db.target, db.source.entries[id]))
    && (forall a, b :: Pending(db, a) && Pending(db, b) && a != b ==>
          !Rivals(db.source.entries[a], db.source.entries[b]))
  }

  lemma ConflictsAfter(target: map<string, Row>, id: string, row: Row, other: Row)
    requires id !in target
    ensures Conflicts(target[id := row], other) <==> Conflicts(target, other) || Rivals(row, other)
  {
    var after := target[id := row];
    if k :| k in target && target[k].tenantId == other.tenantId && target[k].status == other.status {
      assert k in after && after[k] == target[k];
    }
    if Rivals(row, other) { assert id in after; }
  }

  /** Inserting a row that does not conflict neither makes nor takes room. */
  lemma InsertKeepsFit(db: Db, id: string, row: Row, source: JsMap.Map<string, Row>)
    requires Pending(db, id) && db.source.entries[id] == row && !Conflicts(db.target, row)
    requires forall k :: k != id ==> (k in source.entries <==> k in db.source.entries)
    requires forall k :: k in source.entries ==> k in db.source.entries && source.entries[k] == db.source.entries[k]
    ensures Fits(Db(source, db.target[id := row])) <==> Fits(db)
  {
    hide Conflicts, Rivals;
    var after := Db(source, db.target[id := row]);
    forall k ensures Pending(after, k) <==> Pending(db, k) && k != id {
    }
    forall k | Pending(db, k)
      ensures Conflicts(after.target, db.source.entries[k])
              <==> Conflicts(db.target, db.source.entries[k]) || Rivals(row, db.source.entries[k])
    {
      ConflictsAfter(db.target, id, row, db.source.entries[k]);
    }
    forall a, b ensures Rivals(a, b) == Rivals(b, a) { RivalsBothWays(a, b); }
  }

  lemma RivalsBothWays(a: Row, b: Row)
    ensures Rivals(a, b) == Rivals(b, a)
  {
  }

  lemma MoveRowKeepsFit(db: Db, persist: Persist, id: string, row: Row, ops: nat)
    requires id in db.source.entries && db.source.entries[id] == row && Billing(row) && Faithful(row, persist)
    ensures Fits(MoveRow(db, persist, id, row, ops).0) <==> Fits(db)
    ensures Fits(db) && ops >= 4 ==>
              var (_, outcome, left) := MoveRow(db, persist, id, row, ops);
              (outcome == Moved || outcome == Skipped) && left >= ops - 4
  {
    hide Fits, Conflicts, JsMap.Without;
    if id !in db.target && !Conflicts(db.target, row) {
      InsertKeepsFit(db, id, row, db.source);
      InsertKeepsFit(db, id, row, JsMap.Delete(db.source, id));
    }
    if Fits(db) { NoConflict(db, id); }
  }

  lemma NoConflict(db: Db, id: string)
    requires Fits(db)
    ensures Pending(db, id) ==> !Conflicts(db.target, db.source.entries[id])
  {
  }

  lemma {:induction false} MoveAllKeepsFit(db: Db, persist: Persist, rows: seq<(string, Row)>, ops: nat, m: nat, k: nat)
    requires Waiting(db, rows) && forall row :: Faithful(row, persist)
    ensures Fits(MoveAll(db, persist, rows, ops, m, k).0) <==> Fits(db)
    ensures Fits(db) && ops >= 4 * |rows| ==> MoveAll(db, persist, rows, ops, m, k).1.Done?
    decreases |rows|
  {
    if rows != [] {
      var (db', outcome, left) := MoveRow(db, persist, rows[0].0, rows[0].1, ops);
      MoveRowIsSafe(db, persist, rows[0].0, rows[0].1, ops);
      MoveRowKeepsFit(db, persist, rows[0].0, rows[0].1, ops);
      hide MoveRow, Fits, Faithful;
      if outcome == Moved || outcome == Skipped {
        WaitingRest(db, db', rows);
        var (m', k') := if outcome == Moved then (m + 1, k) else (m, k + 1);
        MoveAllKeepsFit(db', persist, rows[1..], left, m', k');
      }
    }
  }

  lemma RunKeepsFit(db: Db, persist: Persist, ops: nat)
    requires forall row :: Faithful(row, persist)
    ensures Fits(Run(db, persist, ops).0) <==> Fits(db)
    ensures Run(db, persist, ops).1.Done? ==> Fits(db)
    ensures ops >= 4 * |BillingRows(db.source, db.source.order)| && Fits(db) ==> Run(db, persist, ops).1.Done?
  {
    SourceWaits(db);
    MoveAllKeepsFit(db, persist, BillingRows(db.source, db.source.order), ops, 0, 0);
    if Run(db, persist, ops).1.Done? {
      CompletedRunLeaves(db, persist, ops);
      RunIsSafe(db, persist, ops);
      hide Run;
      assert forall id :: !Pending(Run(db, persist, ops).0, id);
    }
  }

  /**
   Exactly when the migration can be completed, for a target that keeps rows as given: after
   any crashed runs, a run with enough operations completes if and only if, at the very start,
   the index had room for every billing row the target lacked.
   */
  lemma {:induction false} CompletesIff(db: Db, persist: Persist, budgets: seq<nat>, ops: nat)
    requires forall row :: Faithful(row, persist)
    requires var now := Runs(db, persist, budgets); ops >= 4 * |BillingRows(now.source, now.source.order)|
    ensures Run(Runs(db, persist, budgets), persist, ops).1.Done? <==> Fits(db)
    decreases |budgets|
  {
    hide Run, Fits, Faithful;
    if budgets == [] {
      RunKeepsFit(db, persist, ops);
    } else {
      RunKeepsFit(db, persist, budgets[0]);
      CompletesIff(Run(db, persist, budgets[0]).0, persist, budgets[1..], ops);
    }
  }
}
