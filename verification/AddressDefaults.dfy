/**
 When a user has a default address at all (backend/src/services/address.service.js): which
 calls give one and which drop it, call by call and over whole runs.
 */
module AddressDefaults {
  import opened Wrappers
  import opened AddressBook
  import opened AddressRuns

  // ---------------------------------------------------------------- having a default

  ghost predicate HasDefault(rows: seq<Row>, owner: string) {
    exists i :: 0 <= i < |rows| && Live(rows[i], owner) && rows[i].isDefault
  }

  /** On sound rows a user who has a default has exactly one. */
  lemma DefaultIsOnly(rows: seq<Row>, c: Config, owner: string)
    requires Inv(rows, c)
    ensures HasDefault(rows, owner) <==> exists i :: 0 <= i < |rows| && OnlyDefault(rows, owner, rows[i].id)
  {
    if HasDefault(rows, owner) {
      var i :| 0 <= i < |rows| && Live(rows[i], owner) && rows[i].isDefault;
      DifferentIds(rows, i);
      forall j | 0 <= j < |rows| && Live(rows[j], owner) ensures rows[j].isDefault <==> rows[j].id == rows[i].id {
        OneFlagged(rows, c, i, j);
      }
      assert OnlyDefault(rows, owner, rows[i].id);
    }
    if i :| 0 <= i < |rows| && OnlyDefault(rows, owner, rows[i].id) { OnlyIsDefault(rows, owner, rows[i].id); }
  }

  lemma OneFlagged(rows: seq<Row>, c: Config, i: nat, j: nat)
    requires Inv(rows, c) && i < |rows| && j < |rows| && rows[i].owner == rows[j].owner
    requires Indexed(rows[i], c.scope)
    ensures Indexed(rows[j], c.scope) ==> i == j
  {
  }

  lemma OnlyIsDefault(rows: seq<Row>, owner: string, id: nat)
    requires OnlyDefault(rows, owner, id)
    ensures HasDefault(rows, owner)
    ensures Find(rows, owner, id).Some? && rows[Find(rows, owner, id).value].isDefault
  {
  }

  /** The call takes the flag from the owner's live default without giving it to another row. */
  ghost predicate Drops(rows: seq<Row>, c: Config, owner: string, call: Call) {
    && call.owner == owner
    && Find(rows, owner, call.op.id).Some? && rows[Find(rows, owner, call.op.id).value].isDefault
    && match call.op
       case UpdateOp(_, _, flag) => flag == Some(false)
       case RemoveOp(id) => c.scope.AllRows? || !OthersRemain(rows, owner, id)
       case _ => false
  }

  predicate AsksForDefault(op: Op) {
    match op
    case CreateOp(_, _, want, _) => want
    case UpdateOp(_, _, flag) => flag == Some(true)
    case RemoveOp(_) => false
    case SetDefaultOp(_) => true
  }

  /** The call asks for a default of the owner and succeeds. */
  predicate Gives(rows: seq<Row>, c: Config, owner: string, call: Call) {
    call.owner == owner && AsksForDefault(call.op) && Apply(rows, c, call).1.Ok?
  }

  /** Only rows of `owner` were changed or added. */
  ghost predicate OnlyTouches(rows: seq<Row>, after: seq<Row>, owner: string) {
    && |rows| <= |after|
    && (forall i :: 0 <= i < |rows| ==> after[i].owner == rows[i].owner)
    && (forall i :: 0 <= i < |rows| && rows[i].owner != owner ==> after[i] == rows[i])
    && (forall i :: |rows| <= i < |after| ==> after[i].owner == owner)
  }

  lemma TouchesThenTouches(a: seq<Row>, b: seq<Row>, d: seq<Row>, owner: string)
    requires OnlyTouches(a, b, owner) && OnlyTouches(b, d, owner)
    ensures OnlyTouches(a, d, owner)
  {
  }

  lemma OneRowTouches(rows: seq<Row>, i: nat, row: Row)
    requires i < |rows| && row.owner == rows[i].owner
    ensures OnlyTouches(rows, rows[i := row], row.owner)
  {
  }

  lemma SetDefaultTouches(rows: seq<Row>, owner: string, id: nat)
    ensures OnlyTouches(rows, SetDefault(rows, owner, id).0, owner)
  {
  }

  lemma CreateTouches(rows: seq<Row>, c: Config, owner: string, id: nat, details: string, want: bool, now: int)
    ensures OnlyTouches(rows, Create(rows, c, owner, id, details, want, now).0, owner)
  {
    hide SetDefault;
    var added := rows + [Row(id, owner, false, false, now, details)];
    assert OnlyTouches(rows, added, owner);
    SetDefaultTouches(added, owner, id);
    TouchesThenTouches(rows, added, SetDefault(added, owner, id).0, owner);
  }

  lemma UpdateTouches(rows: seq<Row>, c: Config, owner: string, id: nat, details: string, flag: Option<bool>)
    ensures OnlyTouches(rows, Update(rows, c, owner, id, details, flag).0, owner)
  {
    hide SetDefault, Clashes;
    var at := Find(rows, owner, id);
    if at.Some? {
      var i := at.value;
      var row := rows[i].(details := details, isDefault := if flag.Some? then flag.value else rows[i].isDefault);
      OneRowTouches(rows, i, row);
      SetDefaultTouches(rows[i := row], owner, id);
      hide OnlyTouches;
      TouchesThenTouches(rows, rows[i := row], SetDefault(rows[i := row], owner, id).0, owner);
    }
  }

  lemma RemoveTouches(rows: seq<Row>, c: Config, owner: string, id: nat)
    ensures OnlyTouches(rows, Remove(rows, c, owner, id).0, owner)
  {
    hide Clashes, Cleared;
    var at := Find(rows, owner, id);
    if at.Some? {
      var i := at.value;
      OneRowTouches(rows, i, rows[i].(deleted := true));
      VacatedTouches(rows, owner, i);
      var v := Vacated(rows, owner, i);
      var next := Oldest(v, owner);
      if next.Some? {
        var row := v[next.value].(isDefault := true);
        OneRowTouches(v, next.value, row);
        TouchesThenTouches(rows, v, v[next.value := row], owner);
      }
    }
  }

  lemma VacatedTouches(rows: seq<Row>, owner: string, i: nat)
    requires i < |rows| && rows[i].owner == owner
    ensures OnlyTouches(rows, Vacated(rows, owner, i), owner)
  {
  }

  /** A call leaves the rows of every other owner where and as they were. */
  lemma OthersUntouched(rows: seq<Row>, c: Config, call: Call)
    ensures OnlyTouches(rows, Apply(rows, c, call).0, call.owner)
  {
    hide OnlyTouches, Create, Update, Remove, SetDefault;
    match call.op
    case CreateOp(id, details, want, now) => CreateTouches(rows, c, call.owner, id, details, want, now);
    case UpdateOp(id, details, flag) => UpdateTouches(rows, c, call.owner, id, details, flag);
    case RemoveOp(id) => RemoveTouches(rows, c, call.owner, id);
    case SetDefaultOp(id) => SetDefaultTouches(rows, call.owner, id);
  }

  lemma OtherOwnersDefault(rows: seq<Row>, c: Config, owner: string, call: Call)
    requires call.owner != owner
    ensures HasDefault(Apply(rows, c, call).0, owner) <==> HasDefault(rows, owner)
  {
    OthersUntouched(rows, c, call);
    hide Apply;
    var after := Apply(rows, c, call).0;
    if HasDefault(rows, owner) {
      var i :| 0 <= i < |rows| && Live(rows[i], owner) && rows[i].isDefault;
      assert Live(after[i], owner) && after[i].isDefault;
    }
    if HasDefault(after, owner) {
      var i :| 0 <= i < |after| && Live(after[i], owner) && after[i].isDefault;
      assert Live(rows[i], owner) && rows[i].isDefault;
    }
  }

  lemma SetDefaultStep(rows: seq<Row>, c: Config, owner: string, id: nat)
    requires Inv(rows, c)
    ensures var (after, r) := SetDefault(rows, owner, id);
            if r.Ok? then HasDefault(after, owner) else after == rows
  {
    SetDefaultLeavesOne(rows, c, owner, id);
    if SetDefault(rows, owner, id).1.Ok? { OnlyIsDefault(SetDefault(rows, owner, id).0, owner, id); }
  }

  lemma CreateStep(rows: seq<Row>, c: Config, owner: string, id: nat, details: string, want: bool, now: int)
    requires Inv(rows, c) && forall i :: 0 <= i < |rows| ==> rows[i].id != id
    ensures var (after, r) := Create(rows, c, owner, id, details, want, now);
            HasDefault(after, owner) <==> HasDefault(rows, owner) || (want && r.Ok?)
  {
    hide SetDefault;
    if Count(rows, owner) < c.limit {
      var row := Row(id, owner, false, false, now, details);
      var added := rows + [row];
      CreateKeepsInv(rows, c, owner, id, details, false, now);
      assert HasDefault(added, owner) <==> HasDefault(rows, owner) by { AddedHasDefault(rows, row, owner); }
      SetDefaultStep(added, c, owner, id);
    }
  }

  lemma AddedHasDefault(rows: seq<Row>, row: Row, owner: string)
    requires !row.isDefault
    ensures HasDefault(rows + [row], owner) <==> HasDefault(rows, owner)
  {
    if HasDefault(rows, owner) {
      var i :| 0 <= i < |rows| && Live(rows[i], owner) && rows[i].isDefault;
      assert (rows + [row])[i] == rows[i];
    }
  }

  lemma UpdateStep(rows: seq<Row>, c: Config, owner: string, id: nat, details: string, flag: Option<bool>)
    requires Inv(rows, c)
    ensures var (after, r) := Update(rows, c, owner, id, details, flag);
            var at := Find(rows, owner, id);
            HasDefault(after, owner)
            <==> || (HasDefault(rows, owner) && !(at.Some? && rows[at.value].isDefault && flag == Some(false)))
                 || (flag == Some(true) && r.Ok?)
  {
    hide SetDefault;
    var at := Find(rows, owner, id);
    if at.Some? {
      var i := at.value;
      var row := rows[i].(details := details, isDefault := if flag.Some? then flag.value else rows[i].isDefault);
      var saved := rows[i := row];
      if flag == Some(true) {
        UpdateToDefaultIff(rows, c, owner, id, details);
        var after := Update(rows, c, owner, id, details, flag).0;
        if Update(rows, c, owner, id, details, flag).1.Ok? { OnlyIsDefault(after, owner, id); }
      } else if Save(rows, c.scope, i, row).Ok? {
        SavedHasDefault(rows, c, owner, i, row);
      } else {
        NoClash(rows, c, i, row);
      }
    }
  }

  /** Saving a row whose flag was already on cannot clash. */
  lemma NoClash(rows: seq<Row>, c: Config, i: nat, row: Row)
    requires Inv(rows, c) && i < |rows| && row.owner == rows[i].owner && row.deleted == rows[i].deleted
    requires row.isDefault ==> rows[i].isDefault
    ensures Save(rows, c.scope, i, row).Ok?
  {
    forall j | 0 <= j < |rows| && j != i && rows[j].owner == row.owner && Indexed(row, c.scope)
      ensures !Indexed(rows[i := row][j], c.scope)
    {
      OneFlagged(rows, c, i, j);
    }
  }

  lemma SavedHasDefault(rows: seq<Row>, c: Config, owner: string, i: nat, row: Row)
    requires Inv(rows, c) && i < |rows| && Live(rows[i], owner) && Live(row, owner)
    requires row.isDefault == rows[i].isDefault || !row.isDefault
    ensures HasDefault(rows[i := row], owner)
            <==> HasDefault(rows, owner) && !(rows[i].isDefault && !row.isDefault)
  {
    var saved := rows[i := row];
    if HasDefault(saved, owner) {
      var j :| 0 <= j < |saved| && Live(saved[j], owner) && saved[j].isDefault;
      assert Live(rows[j], owner) && rows[j].isDefault;
      OneFlagged(rows, c, j, i);
    }
    if HasDefault(rows, owner) && !(rows[i].isDefault && !row.isDefault) {
      var j :| 0 <= j < |rows| && Live(rows[j], owner) && rows[j].isDefault;
      assert Live(saved[j], owner) && saved[j].isDefault;
    }
  }

  lemma RemoveStep(rows: seq<Row>, c: Config, owner: string, id: nat)
    requires Inv(rows, c)
    ensures var after := Remove(rows, c, owner, id).0;
            var at := Find(rows, owner, id);
            HasDefault(after, owner)
            <==> HasDefault(rows, owner)
                 && !(at.Some? && rows[at.value].isDefault && (c.scope.AllRows? || !OthersRemain(rows, owner, id)))
  {
    var at := Find(rows, owner, id);
    if at.Some? {
      var i := at.value;
      if rows[i].isDefault {
        assert HasDefault(rows, owner);
        RemoveDefaultPromotesIff(rows, c, owner, id);
        RemovedHasDefault(rows, c, owner, id);
      } else {
        PlainRemovalHasDefault(rows, owner, i);
      }
    }
  }

  lemma PlainRemovalHasDefault(rows: seq<Row>, owner: string, i: nat)
    requires i < |rows| && !rows[i].isDefault
    ensures HasDefault(rows[i := rows[i].(deleted := true)], owner) <==> HasDefault(rows, owner)
  {
    var after := rows[i := rows[i].(deleted := true)];
    if HasDefault(rows, owner) {
      var j :| 0 <= j < |rows| && Live(rows[j], owner) && rows[j].isDefault;
      assert Live(after[j], owner) && after[j].isDefault;
    }
    if HasDefault(after, owner) {
      var j :| 0 <= j < |after| && Live(after[j], owner) && after[j].isDefault;
      assert Live(rows[j], owner) && rows[j].isDefault;
    }
  }

  lemma RemovedHasDefault(rows: seq<Row>, c: Config, owner: string, id: nat)
    requires Inv(rows, c) && Find(rows, owner, id).Some? && rows[Find(rows, owner, id).value].isDefault
    ensures HasDefault(Remove(rows, c, owner, id).0, owner) <==> c.scope.LiveRows? && OthersRemain(rows, owner, id)
  {
    RemoveDefaultPromotesIff(rows, c, owner, id);
    var (after, r) := Remove(rows, c, owner, id);
    if r.Ok? && OthersRemain(rows, owner, id) {
      var k :| 0 <= k < |after| && Live(after[k], owner) && OnlyDefault(after, owner, after[k].id);
      OnlyIsDefault(after, owner, after[k].id);
    } else if r.Ok? {
      NobodyLeft(rows, c, owner, id);
    }
  }

  lemma NobodyLeft(rows: seq<Row>, c: Config, owner: string, id: nat)
    requires Inv(rows, c) && Find(rows, owner, id).Some? && rows[Find(rows, owner, id).value].isDefault
    requires !OthersRemain(rows, owner, id)
    ensures !HasDefault(Remove(rows, c, owner, id).0, owner)
  {
    hide Cleared, Inv;
    var i := Find(rows, owner, id).value;
    InvParts(rows, c);
    DifferentIds(rows, i);
    VacatedEffect(rows, owner, i);
    hide Vacated;
    var v := Vacated(rows, owner, i);
    assert forall k :: 0 <= k < |v| ==> !Live(v[k], owner);
    assert Oldest(v, owner).None?;
  }

  /**
   One call, any user: afterwards the owner has a live default exactly if there was one and
   the call did not drop it, or the call asked for one and succeeded.
   */
  lemma DefaultAfterCallIff(rows: seq<Row>, c: Config, owner: string, call: Call)
    requires Inv(rows, c) && FreshId(rows, call)
    ensures HasDefault(Apply(rows, c, call).0, owner)
            <==> (HasDefault(rows, owner) && !Drops(rows, c, owner, call)) || Gives(rows, c, owner, call)
  {
    hide HasDefault, Inv, Create, Update, Remove, SetDefault;
    if call.owner != owner {
      OtherOwnersDefault(rows, c, owner, call);
    } else {
      match call.op
      case CreateOp(id, details, want, now) => CreateStep(rows, c, owner, id, details, want, now);
      case UpdateOp(id, details, flag) => UpdateStep(rows, c, owner, id, details, flag);
      case RemoveOp(id) => RemoveStep(rows, c, owner, id);
      case SetDefaultOp(id) => SetDefaultStep(rows, c, owner, id);
    }
  }

  /**
   A default survives every call except two: an update that switches its own flag off, and
   its removal when the index still sees removed rows or no other address is left.
   */
  lemma DefaultKeptIff(rows: seq<Row>, c: Config, owner: string, id: nat, call: Call)
    requires Inv(rows, c) && OnlyDefault(rows, owner, id) && FreshId(rows, call)
    ensures HasDefault(Apply(rows, c, call).0, owner)
            <==> !(&& call.owner == owner && call.op.id == id
                   && (|| (call.op.UpdateOp? && call.op.flag == Some(false))
                       || (call.op.RemoveOp? && (c.scope.AllRows? || !OthersRemain(rows, owner, id)))))
  {
    hide Apply, Inv, HasDefault;
    OnlyIsDefault(rows, owner, id);
    DefaultAfterCallIff(rows, c, owner, call);
  }

  // ---------------------------------------------------------------- defaults over runs

  lemma {:induction false} RunSnoc(rows: seq<Row>, c: Config, calls: seq<Call>, last: Call)
    requires FreshIds(rows, c, calls + [last])
    ensures Run(rows, c, calls + [last]) == Apply(Run(rows, c, calls), c, last).0
    ensures FreshIds(rows, c, calls) && FreshId(Run(rows, c, calls), last)
    decreases |calls|
  {
    hide Apply;
    if calls == [] {
      assert [] + [last] == [last] && [last][1..] == [];
    } else {
      assert (calls + [last])[1..] == calls[1..] + [last];
      RunSnoc(Apply(rows, c, calls[0]).0, c, calls[1..], last);
    }
  }

  /** The rows before call `k` of a run from nothing. */
  function Before(c: Config, calls: seq<Call>, k: nat): seq<Row>
    requires k <= |calls|
  {
    Run([], c, calls[..k])
  }

  predicate GivesAt(c: Config, calls: seq<Call>, owner: string, k: nat)
    requires k < |calls|
  {
    Gives(Before(c, calls, k), c, owner, calls[k])
  }

  ghost predicate DropsAt(c: Config, calls: seq<Call>, owner: string, k: nat)
    requires k < |calls|
  {
    Drops(Before(c, calls, k), c, owner, calls[k])
  }

  ghost predicate GivenAndKept(c: Config, calls: seq<Call>, owner: string) {
    exists k :: 0 <= k < |calls| && GivesAt(c, calls, owner, k)
                && forall j :: k < j < |calls| ==> !DropsAt(c, calls, owner, j)
  }

  /** Over every run a user has a live default exactly if some call gave one and no later call dropped it. */
  lemma {:induction false} DefaultOverRunsIff(c: Config, calls: seq<Call>, owner: string)
    requires FreshIds([], c, calls)
    ensures HasDefault(Run([], c, calls), owner) <==> GivenAndKept(c, calls, owner)
    decreases |calls|
  {
    if calls != [] {
      var (p, n) := (calls[..|calls| - 1], |calls| - 1);
      assert calls == p + [calls[n]];
      RunSnoc([], c, p, calls[n]);
      DefaultOverRunsIff(c, p, owner);
      assert Inv([], c);
      RunKeepsInv([], c, p);
      DefaultAfterCallIff(Run([], c, p), c, owner, calls[n]);
      GivenAndKeptSnoc(c, p, calls[n], owner);
    }
  }

  lemma GivenAndKeptSnoc(c: Config, p: seq<Call>, last: Call, owner: string)
    ensures GivenAndKept(c, p + [last], owner)
            <==> || Gives(Run([], c, p), c, owner, last)
                 || (GivenAndKept(c, p, owner) && !Drops(Run([], c, p), c, owner, last))
  {
    hide Gives, Drops, Run;
    var (calls, n) := (p + [last], |p|);
    assert calls[..n] == p;
    forall k | 0 <= k < n
      ensures GivesAt(c, calls, owner, k) == GivesAt(c, p, owner, k)
      ensures DropsAt(c, calls, owner, k) == DropsAt(c, p, owner, k)
    {
      assert calls[..k] == p[..k];
    }
    if GivenAndKept(c, calls, owner) && !Gives(Run([], c, p), c, owner, last) {
      var k :| 0 <= k < |calls| && GivesAt(c, calls, owner, k)
               && forall j :: k < j < |calls| ==> !DropsAt(c, calls, owner, j);
      assert k < n;
      assert !DropsAt(c, calls, owner, n);
      assert GivesAt(c, p, owner, k) && forall j :: k < j < n ==> !DropsAt(c, p, owner, j);
    }
    if Gives(Run([], c, p), c, owner, last) { assert GivesAt(c, calls, owner, n); }
    if GivenAndKept(c, p, owner) && !Drops(Run([], c, p), c, owner, last) {
      var k :| 0 <= k < n && GivesAt(c, p, owner, k) && forall j :: k < j < n ==> !DropsAt(c, p, owner, j);
      assert GivesAt(c, calls, owner, k) && forall j :: k < j < |calls| ==> !DropsAt(c, calls, owner, j);
    }
  }
}
