/**
 What each call of backend/src/services/address.service.js promises on sound rows, and what
 holds after any calls of any users.
 */
module AddressRuns {
  import opened Wrappers
  import opened AddressBook

  predicate OthersRemain(rows: seq<Row>, owner: string, id: nat) {
    exists k :: 0 <= k < |rows| && Live(rows[k], owner) && rows[k].id != id
  }

  /** The owner's live flagged rows are exactly the one with this id. */
  ghost predicate OnlyDefault(rows: seq<Row>, owner: string, id: nat) {
    && (exists i :: 0 <= i < |rows| && Live(rows[i], owner) && rows[i].id == id)
    && forall i :: 0 <= i < |rows| && Live(rows[i], owner) ==> (rows[i].isDefault <==> rows[i].id == id)
  }

  /**
   Removing the default while other addresses remain: it succeeds, and promotes the oldest of
   them, exactly when the index leaves removed rows out. Under the declared index the removed
   row still holds the flag, so the promotion is refused and no live default is left.
   */
  lemma RemoveDefaultPromotesIff(rows: seq<Row>, c: Config, owner: string, id: nat)
    requires Inv(rows, c) && Find(rows, owner, id).Some? && rows[Find(rows, owner, id).value].isDefault
    ensures var (after, r) := Remove(rows, c, owner, id);
            && (r.Ok? <==> c.scope.LiveRows? || !OthersRemain(rows, owner, id))
            && (forall k :: 0 <= k < |after| && Live(after[k], owner) ==> after[k].id != id)
            && (r.Ok? && OthersRemain(rows, owner, id) ==>
                  exists k :: && 0 <= k < |after| && Live(after[k], owner) && OnlyDefault(after, owner, after[k].id)
                              && forall j :: 0 <= j < |after| && Live(after[j], owner) ==>
                                   after[k].createdAt <= after[j].createdAt)
            && (r.Err? ==> r.error == DuplicateKey
                           && forall k :: 0 <= k < |after| && Live(after[k], owner) ==> !after[k].isDefault)
  {
    hide Cleared, Inv;
    var i := Find(rows, owner, id).value;
    InvParts(rows, c);
    DifferentIds(rows, i);
    var v := Vacated(rows, owner, i);
    VacatedEffect(rows, owner, i);
    hide Vacated;
    assert OthersRemain(rows, owner, id) <==> exists k :: 0 <= k < |v| && Live(v[k], owner);
    var next := Oldest(v, owner);
    hide Oldest;
    if next.Some? {
      var k := next.value;
      var promoted := v[k := v[k].(isDefault := true)];
      assert promoted[i] == v[i] && promoted[i].owner == owner;
      if c.scope.AllRows? {
        assert Indexed(promoted[i], c.scope);
        assert Clashes(promoted, c.scope, k);
      } else {
        assert !Clashes(promoted, c.scope, k);
        assert Live(promoted[k], owner);
        PromotedIsOnly(v, owner, k);
      }
    }
  }

  lemma DifferentIds(rows: seq<Row>, i: nat)
    requires DistinctIds(rows) && i < |rows|
    ensures forall k :: 0 <= k < |rows| && k != i ==> rows[k].id != rows[i].id
  {
    forall k | 0 <= k < |rows| && k != i ensures rows[k].id != rows[i].id {
      if k < i { assert rows[k].id != rows[i].id; } else { assert rows[i].id != rows[k].id; }
    }
  }

  lemma PromotedIsOnly(v: seq<Row>, owner: string, k: nat)
    requires k < |v| && Live(v[k], owner)
    requires forall j :: 0 <= j < |v| && Live(v[j], owner) ==> !v[j].isDefault
    requires forall j :: 0 <= j < |v| && j != k ==> v[j].id != v[k].id
    ensures OnlyDefault(v[k := v[k].(isDefault := true)], owner, v[k].id)
  {
    var promoted := v[k := v[k].(isDefault := true)];
    assert Live(promoted[k], owner) && promoted[k].id == v[k].id;
  }

  // ---------------------------------------------------------------- runs

  datatype Op =
    | CreateOp(id: nat, details: string, wantDefault: bool, now: int)
    | UpdateOp(id: nat, details: string, flag: Option<bool>)
    | RemoveOp(id: nat)
    | SetDefaultOp(id: nat)

  datatype Call = Call(owner: string, op: Op)

  function Apply(rows: seq<Row>, c: Config, call: Call): (seq<Row>, Result<(), Error>) {
    match call.op
    case CreateOp(id, details, want, now) => Create(rows, c, call.owner, id, details, want, now)
    case UpdateOp(id, details, flag) => Update(rows, c, call.owner, id, details, flag)
    case RemoveOp(id) => Remove(rows, c, call.owner, id)
    case SetDefaultOp(id) => SetDefault(rows, call.owner, id)
  }

  function Run(rows: seq<Row>, c: Config, calls: seq<Call>): seq<Row>
    decreases |calls|
  {
    if calls == [] then rows else Run(Apply(rows, c, calls[0]).0, c, calls[1..])
  }

  /** New rows get ids never used before. */
  ghost predicate FreshId(rows: seq<Row>, call: Call) {
    call.op.CreateOp? ==> forall i :: 0 <= i < |rows| ==> rows[i].id != call.op.id
  }

  ghost predicate FreshIds(rows: seq<Row>, c: Config, calls: seq<Call>)
    decreases |calls|
  {
    calls == [] || (FreshId(rows, calls[0]) && FreshIds(Apply(rows, c, calls[0]).0, c, calls[1..]))
  }

  lemma ApplyKeepsInv(rows: seq<Row>, c: Config, call: Call)
    requires Inv(rows, c) && FreshId(rows, call)
    ensures Inv(Apply(rows, c, call).0, c)
  {
    hide Inv, Create, Update, Remove, SetDefault;
    match call.op
    case CreateOp(id, details, want, now) => CreateKeepsInv(rows, c, call.owner, id, details, want, now);
    case UpdateOp(id, details, flag) => UpdateKeepsInv(rows, c, call.owner, id, details, flag);
    case RemoveOp(id) => RemoveKeepsInv(rows, c, call.owner, id);
    case SetDefaultOp(id) =>
      InvParts(rows, c);
      SetDefaultKeepsInv(rows, c, call.owner, id);
  }

  lemma {:induction false} RunKeepsInv(rows: seq<Row>, c: Config, calls: seq<Call>)
    requires Inv(rows, c) && FreshIds(rows, c, calls)
    ensures Inv(Run(rows, c, calls), c)
    decreases |calls|
  {
    hide Inv, Apply;
    if calls != [] {
      ApplyKeepsInv(rows, c, calls[0]);
      RunKeepsInv(Apply(rows, c, calls[0]).0, c, calls[1..]);
    }
  }

  /** After any calls of any users: at most one live default each, and no more rows than the limit. */
  lemma AtMostOneDefault(c: Config, calls: seq<Call>)
    requires FreshIds([], c, calls)
    ensures var rows := Run([], c, calls);
            && (forall i, j :: 0 <= i < j < |rows| && rows[i].owner == rows[j].owner ==>
                  !(rows[i].isDefault && !rows[i].deleted && rows[j].isDefault && !rows[j].deleted))
            && (forall owner :: Count(rows, owner) <= c.limit)
  {
    assert Inv([], c);
    RunKeepsInv([], c, calls);
  }

  /** Setting a default leaves exactly that one live default, whoever carried the flag before. */
  lemma SetDefaultLeavesOne(rows: seq<Row>, c: Config, owner: string, id: nat)
    requires Inv(rows, c)
    ensures SetDefault(rows, owner, id).1.Ok? <==> Find(rows, owner, id).Some?
    ensures SetDefault(rows, owner, id).1.Ok? ==> OnlyDefault(SetDefault(rows, owner, id).0, owner, id)
  {
    if Find(rows, owner, id).Some? { SetDefaultEffect(rows, owner, id); }
  }

  /**
   Asking for the default through `update` first saves the flag on the row itself: it fails
   exactly when another indexed row still carries the flag, although `setDefault` would have
   cleared it.
   */
  lemma UpdateToDefaultIff(rows: seq<Row>, c: Config, owner: string, id: nat, details: string)
    requires Inv(rows, c) && Find(rows, owner, id).Some?
    ensures var i := Find(rows, owner, id).value;
            var (after, r) := Update(rows, c, owner, id, details, Some(true));
            && (r.Ok? <==> !Clashes(rows, c.scope, i))
            && (r.Ok? ==> OnlyDefault(after, owner, id))
            && (r.Err? ==> after == rows && r.error == DuplicateKey)
  {
    hide SetDefault;
    var i := Find(rows, owner, id).value;
    var row := rows[i].(details := details, isDefault := true);
    var saved := rows[i := row];
    assert forall j :: 0 <= j < |rows| && j != i ==> saved[j] == rows[j];
    assert Clashes(saved, c.scope, i) <==> Clashes(rows, c.scope, i);
    if !Clashes(rows, c.scope, i) {
      SaveKeepsInv(rows, c, i, row);
      assert Live(saved[i], owner) && saved[i].id == id;
      SetDefaultLeavesOne(saved, c, owner, id);
    }
  }

  /** The limit counts removed addresses: a user never gets more rows in a lifetime than the limit. */
  lemma CreateFailsIff(rows: seq<Row>, c: Config, owner: string, id: nat, details: string, want: bool, now: int)
    requires Inv(rows, c) && forall i :: 0 <= i < |rows| ==> rows[i].id != id
    ensures Create(rows, c, owner, id, details, want, now).1.Ok? <==> Count(rows, owner) < c.limit
    ensures Create(rows, c, owner, id, details, want, now).1.Err? ==>
              Create(rows, c, owner, id, details, want, now) == (rows, Err(LimitReached))
  {
    if Count(rows, owner) < c.limit {
      var added := rows + [Row(id, owner, false, false, now, details)];
      assert Live(added[|rows|], owner) && added[|rows|].id == id;
    }
  }
}
