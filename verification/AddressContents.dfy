/**
 What each call of backend/src/services/address.service.js does to the addresses themselves:
 which ones a user has, with which details, apart from the default flag.
 */
module AddressContents {
  import opened Wrappers
  import opened AddressBook
  import opened AddressRuns
  import opened AddressDefaults

  /** The user has a live address of this id, with these details, created then. */
  ghost predicate Has(rows: seq<Row>, owner: string, id: nat, details: string, at: int) {
    exists i :: 0 <= i < |rows| && Live(rows[i], owner) && rows[i].id == id && rows[i].details == details
                && rows[i].createdAt == at
  }

  /** The rows differ in their flags only. */
  ghost predicate OnlyFlags(rows: seq<Row>, after: seq<Row>) {
    |rows| == |after| && forall i :: 0 <= i < |rows| ==> after[i] == rows[i].(isDefault := after[i].isDefault)
  }

  lemma FlagsKeepAddresses(rows: seq<Row>, after: seq<Row>, owner: string, id: nat, details: string, at: int)
    requires OnlyFlags(rows, after)
    ensures Has(after, owner, id, details, at) <==> Has(rows, owner, id, details, at)
  {
    if Has(rows, owner, id, details, at) {
      var i :| 0 <= i < |rows| && Live(rows[i], owner) && rows[i].id == id && rows[i].details == details
               && rows[i].createdAt == at;
      assert Live(after[i], owner) && after[i].id == id && after[i].details == details && after[i].createdAt == at;
    }
    if Has(after, owner, id, details, at) {
      var i :| 0 <= i < |after| && Live(after[i], owner) && after[i].id == id && after[i].details == details
               && after[i].createdAt == at;
      assert Live(rows[i], owner) && rows[i].id == id && rows[i].details == details && rows[i].createdAt == at;
    }
  }

  lemma SetDefaultFlags(rows: seq<Row>, owner: string, id: nat)
    ensures OnlyFlags(rows, SetDefault(rows, owner, id).0)
  {
  }

  lemma RowAdded(rows: seq<Row>, row: Row, owner: string, id: nat, details: string, at: int)
    requires row.owner == owner && !row.deleted
    ensures Has(rows + [row], owner, id, details, at)
            <==> Has(rows, owner, id, details, at) || (id == row.id && details == row.details && at == row.createdAt)
  {
    var after := rows + [row];
    if Has(rows, owner, id, details, at) {
      var i :| 0 <= i < |rows| && Live(rows[i], owner) && rows[i].id == id && rows[i].details == details
               && rows[i].createdAt == at;
      assert after[i] == rows[i];
    }
    if id == row.id && details == row.details && at == row.createdAt { assert after[|rows|] == row; }
  }

  lemma CreateAdds(rows: seq<Row>, c: Config, owner: string, op: Op, id: nat, details: string, at: int)
    requires op.CreateOp?
    ensures var (after, r) := Create(rows, c, owner, op.id, op.details, op.wantDefault, op.now);
            Has(after, owner, id, details, at)
            <==> || Has(rows, owner, id, details, at)
                 || (r.Ok? && id == op.id && details == op.details && at == op.now)
  {
    hide Has, SetDefault, OnlyFlags;
    var added := rows + [Row(op.id, owner, false, false, op.now, op.details)];
    RowAdded(rows, added[|rows|], owner, id, details, at);
    SetDefaultFlags(added, owner, op.id);
    FlagsKeepAddresses(added, SetDefault(added, owner, op.id).0, owner, id, details, at);
    if Create(rows, c, owner, op.id, op.details, op.wantDefault, op.now).1.Err? { FreshFound(rows, op, owner); }
  }

  /** A row that was just added is found again. */
  lemma FreshFound(rows: seq<Row>, op: Op, owner: string)
    requires op.CreateOp?
    ensures SetDefault(rows + [Row(op.id, owner, false, false, op.now, op.details)], owner, op.id).1.Ok?
  {
    var added := rows + [Row(op.id, owner, false, false, op.now, op.details)];
    assert Live(added[|rows|], owner) && added[|rows|].id == op.id;
  }

  lemma RowReplaced(rows: seq<Row>, i: nat, row: Row, owner: string, id: nat, details: string, at: int)
    requires DistinctIds(rows) && i < |rows| && Live(rows[i], owner) && Live(row, owner)
    requires row.id == rows[i].id && row.createdAt == rows[i].createdAt
    ensures Has(rows[i := row], owner, id, details, at)
            <==> if id == row.id then details == row.details && at == row.createdAt
                 else Has(rows, owner, id, details, at)
  {
    var after := rows[i := row];
    if id == row.id && details == row.details && at == row.createdAt { assert after[i] == row; }
    if id != row.id && Has(rows, owner, id, details, at) {
      var k :| 0 <= k < |rows| && Live(rows[k], owner) && rows[k].id == id && rows[k].details == details
               && rows[k].createdAt == at;
      assert after[k] == rows[k];
    }
  }

  lemma UpdateReplaces(rows: seq<Row>, c: Config, owner: string, op: Op, id: nat, details: string, at: int)
    requires DistinctIds(rows) && op.UpdateOp?
    ensures var (after, r) := Update(rows, c, owner, op.id, op.details, op.flag);
            var found := Find(rows, owner, op.id);
            Has(after, owner, id, details, at)
            <==> if r.Ok? && id == op.id then found.Some? && details == op.details && at == rows[found.value].createdAt
                 else Has(rows, owner, id, details, at)
  {
    hide Has, SetDefault, OnlyFlags, Clashes;
    var found := Find(rows, owner, op.id);
    if found.Some? {
      var i := found.value;
      var row := rows[i].(details := op.details,
                          isDefault := if op.flag.Some? then op.flag.value else rows[i].isDefault);
      var saved := rows[i := row];
      RowReplaced(rows, i, row, owner, id, details, at);
      SetDefaultFlags(saved, owner, op.id);
      FlagsKeepAddresses(saved, SetDefault(saved, owner, op.id).0, owner, id, details, at);
      UpdatedFound(saved, owner, op.id, i);
    }
  }

  lemma UpdatedFound(rows: seq<Row>, owner: string, id: nat, i: nat)
    requires i < |rows| && Live(rows[i], owner) && rows[i].id == id
    ensures SetDefault(rows, owner, id).1.Ok?
  {
  }

  lemma RowDeleted(rows: seq<Row>, i: nat, owner: string, id: nat, details: string, at: int)
    requires DistinctIds(rows) && i < |rows|
    ensures Has(rows[i := rows[i].(deleted := true)], owner, id, details, at)
            <==> id != rows[i].id && Has(rows, owner, id, details, at)
  {
    var after := rows[i := rows[i].(deleted := true)];
    if id != rows[i].id && Has(rows, owner, id, details, at) {
      var k :| 0 <= k < |rows| && Live(rows[k], owner) && rows[k].id == id && rows[k].details == details
               && rows[k].createdAt == at;
      assert after[k] == rows[k];
    }
    if Has(after, owner, id, details, at) {
      var k :| 0 <= k < |after| && Live(after[k], owner) && after[k].id == id && after[k].details == details
               && after[k].createdAt == at;
      assert after[k] == rows[k];
    }
  }

  /** Beyond the removed row only flags change, even where promoting another one fails. */
  lemma RemoveFlags(rows: seq<Row>, c: Config, owner: string, id: nat, i: nat)
    requires Find(rows, owner, id) == Some(i)
    ensures OnlyFlags(rows[i := rows[i].(deleted := true)], Remove(rows, c, owner, id).0)
  {
    hide Clashes;
  }

  lemma RemoveDeletes(rows: seq<Row>, c: Config, owner: string, gone: nat, id: nat, details: string, at: int)
    requires DistinctIds(rows)
    ensures Has(Remove(rows, c, owner, gone).0, owner, id, details, at)
            <==> id != gone && Has(rows, owner, id, details, at)
  {
    match Find(rows, owner, gone)
    case None =>
    case Some(i) =>
      hide Has, Remove, OnlyFlags;
      RowDeleted(rows, i, owner, id, details, at);
      RemoveFlags(rows, c, owner, gone, i);
      FlagsKeepAddresses(rows[i := rows[i].(deleted := true)], Remove(rows, c, owner, gone).0, owner, id, details, at);
  }

  lemma OthersKeepAddresses(rows: seq<Row>, after: seq<Row>, changed: string, owner: string,
                            id: nat, details: string, at: int)
    requires changed != owner && OnlyTouches(rows, after, changed)
    ensures Has(after, owner, id, details, at) <==> Has(rows, owner, id, details, at)
  {
    if Has(rows, owner, id, details, at) {
      var i :| 0 <= i < |rows| && Live(rows[i], owner) && rows[i].id == id && rows[i].details == details
               && rows[i].createdAt == at;
      assert after[i] == rows[i];
    }
    if Has(after, owner, id, details, at) {
      var i :| 0 <= i < |after| && Live(after[i], owner) && after[i].id == id && after[i].details == details
               && after[i].createdAt == at;
      assert i < |rows| && after[i] == rows[i];
    }
  }

  /**
   What any call leaves in a user's book. Creating adds the new address, updating replaces the
   details and keeps the date, removing takes the address away even if the promotion fails,
   setting a default changes none, and other users' calls change none.
   */
  lemma AddressesAfterCall(rows: seq<Row>, c: Config, call: Call, owner: string, id: nat, details: string, at: int)
    requires Inv(rows, c)
    ensures var (after, r) := Apply(rows, c, call);
            Has(after, owner, id, details, at)
            <==> if call.owner != owner then Has(rows, owner, id, details, at)
                 else
                   match call.op
                   case CreateOp(added, text, _, now) =>
                     Has(rows, owner, id, details, at) || (r.Ok? && id == added && details == text && at == now)
                   case UpdateOp(which, text, _) =>
                     if r.Ok? && id == which then details == text && exists was :: Has(rows, owner, id, was, at)
                     else Has(rows, owner, id, details, at)
                   case RemoveOp(which) => id != which && Has(rows, owner, id, details, at)
                   case SetDefaultOp(_) => Has(rows, owner, id, details, at)
  {
    hide Has, Create, Update, Remove, SetDefault, OnlyTouches, OnlyFlags;
    assert DistinctIds(rows);
    if call.owner != owner {
      OthersUntouched(rows, c, call);
      OthersKeepAddresses(rows, Apply(rows, c, call).0, call.owner, owner, id, details, at);
    } else {
      match call.op
      case CreateOp(_, _, _, _) => CreateAdds(rows, c, owner, call.op, id, details, at);
      case UpdateOp(which, _, _) =>
        UpdateReplaces(rows, c, owner, call.op, id, details, at);
        UpdateFinds(rows, c, owner, call.op);
        FoundIs(rows, owner, which, at);
      case RemoveOp(which) => RemoveDeletes(rows, c, owner, which, id, details, at);
      case SetDefaultOp(which) =>
        SetDefaultFlags(rows, owner, which);
        FlagsKeepAddresses(rows, SetDefault(rows, owner, which).0, owner, id, details, at);
    }
  }

  lemma UpdateFinds(rows: seq<Row>, c: Config, owner: string, op: Op)
    requires op.UpdateOp?
    ensures Update(rows, c, owner, op.id, op.details, op.flag).1.Ok? ==> Find(rows, owner, op.id).Some?
  {
  }

  lemma FoundIs(rows: seq<Row>, owner: string, id: nat, at: int)
    requires DistinctIds(rows)
    ensures var found := Find(rows, owner, id);
            (exists was :: Has(rows, owner, id, was, at)) <==> found.Some? && at == rows[found.value].createdAt
  {
    var found := Find(rows, owner, id);
    if found.Some? && at == rows[found.value].createdAt {
      assert Has(rows, owner, id, rows[found.value].details, at);
    }
  }
}
