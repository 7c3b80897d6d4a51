/**
 Saved addresses and the default flag (backend/src/services/address.service.js). Removal is
 soft: the row stays, and only `find…` queries skip it (backend/src/models/plugins/index.js).
 The unique index on the flag (backend/src/models/address.model.js:71) is declared over all
 rows; `Scope` also allows an index over live rows, to say what depends on that.
 */
module AddressBook {
  import opened Wrappers

  /** `owner` stands for tenant and user; rows are kept in creation order. */
  datatype Row = Row(id: nat, owner: string, isDefault: bool, deleted: bool, createdAt: int, details: string)

  datatype Scope = AllRows | LiveRows

  datatype Error = NotFound | LimitReached | DuplicateKey

  datatype Config = Config(limit: nat, scope: Scope)

  // ---------------------------------------------------------------- queries and writes

  predicate Live(r: Row, owner: string) { r.owner == owner && !r.deleted }

  /** `findOne({ _id, userId, tenantId })`: the position of the live row. */
  function Find(rows: seq<Row>, owner: string, id: nat): (i: Option<nat>)
    ensures i.Some? ==> i.value < |rows| && rows[i.value].id == id && Live(rows[i.value], owner)
    ensures i.None? ==> forall k :: 0 <= k < |rows| && Live(rows[k], owner) ==> rows[k].id != id
  {
    if rows == [] then None
    else if rows[0].id == id && Live(rows[0], owner) then Some(0)
    else
      match Find(rows[1..], owner, id)
      case None =>
        assert forall k :: 0 < k < |rows| ==> rows[k] == rows[1..][k - 1];
        None
      case Some(i) => Some(i + 1)
  }

  /** `countDocuments({ userId, tenantId })`: removed rows count too. */
  function Count(rows: seq<Row>, owner: string): nat {
    if rows == [] then 0 else (if rows[0].owner == owner then 1 else 0) + Count(rows[1..], owner)
  }

  /** `updateMany(…, { isDefault: false })` on the owner's rows but one: removed rows are updated too. */
  function Cleared(rows: seq<Row>, owner: string, except: Option<nat>): (r: seq<Row>)
    ensures |r| == |rows|
  {
    seq(|rows|, i requires 0 <= i < |rows| =>
      if rows[i].owner == owner && Some(rows[i].id) != except then rows[i].(isDefault := false) else rows[i])
  }

  predicate Indexed(r: Row, scope: Scope) { r.isDefault && (scope.AllRows? || !r.deleted) }

  /** Another indexed row of the same owner already carries the flag. */
  predicate Clashes(rows: seq<Row>, scope: Scope, i: nat)
    requires i < |rows|
  {
    exists j :: 0 <= j < |rows| && j != i && rows[j].owner == rows[i].owner && Indexed(rows[j], scope)
  }

  /** `save()` of one row under the unique index. */
  function Save(rows: seq<Row>, scope: Scope, i: nat, row: Row): Result<seq<Row>, Error>
    requires i < |rows|
  {
    if Indexed(row, scope) && Clashes(rows[i := row], scope, i) then Err(DuplicateKey) else Ok(rows[i := row])
  }

  /** The live row created first, if any; the earlier position on a tie. */
  function Oldest(rows: seq<Row>, owner: string): (i: Option<nat>)
    ensures i.Some? ==>
              && i.value < |rows| && Live(rows[i.value], owner)
              && forall k :: 0 <= k < |rows| && Live(rows[k], owner) ==>
                   rows[i.value].createdAt < rows[k].createdAt
                   || (rows[i.value].createdAt == rows[k].createdAt && i.value <= k)
    ensures i.None? ==> forall k :: 0 <= k < |rows| ==> !Live(rows[k], owner)
  {
    if rows == [] then None
    else
      var (p, n) := (rows[..|rows| - 1], |rows| - 1);
      assert forall k :: 0 <= k < n ==> rows[k] == p[k];
      var before := Oldest(p, owner);
      if Live(rows[n], owner) && (before.None? || rows[n].createdAt < p[before.value].createdAt) then Some(n)
      else before
  }

  // ---------------------------------------------------------------- operations

  function SetDefault(rows: seq<Row>, owner: string, id: nat): (seq<Row>, Result<(), Error>) {
    match Find(rows, owner, id)
    case None => (rows, Err(NotFound))
    case Some(i) => (Cleared(rows, owner, None)[i := rows[i].(isDefault := true)], Ok(()))
  }

  function Create(rows: seq<Row>, c: Config, owner: string, id: nat, details: string, wantDefault: bool, now: int)
    : (seq<Row>, Result<(), Error>)
  {
    if Count(rows, owner) >= c.limit then (rows, Err(LimitReached))
    else
      var added := rows + [Row(id, owner, false, false, now, details)];
      if wantDefault then SetDefault(added, owner, id) else (added, Ok(()))
  }

  /** `patch`: new details, and the flag if the patch mentions it. */
  function Update(rows: seq<Row>, c: Config, owner: string, id: nat, details: string, flag: Option<bool>)
    : (seq<Row>, Result<(), Error>)
  {
    match Find(rows, owner, id)
    case None => (rows, Err(NotFound))
    case Some(i) =>
      var row := rows[i].(details := details, isDefault := if flag.Some? then flag.value else rows[i].isDefault);
      match Save(rows, c.scope, i, row)
      case Err(e) => (rows, Err(e))
      case Ok(saved) => if flag == Some(true) then SetDefault(saved, owner, id) else (saved, Ok(()))
  }

  function Remove(rows: seq<Row>, c: Config, owner: string, id: nat): (seq<Row>, Result<(), Error>) {
    match Find(rows, owner, id)
    case None => (rows, Err(NotFound))
    case Some(i) =>
      var removed := rows[i := rows[i].(deleted := true)];
      if !rows[i].isDefault then (removed, Ok(()))
      else
        var cleared := Cleared(removed, owner, Some(id));
        match Oldest(cleared, owner)
        case None => (cleared, Ok(()))
        case Some(k) =>
          match Save(cleared, c.scope, k, cleared[k].(isDefault := true))
          case Err(e) => (cleared, Err(e))
          case Ok(promoted) => (promoted, Ok(()))
  }

  class AddressService {
    const config: Config
    var rows: seq<Row>

    constructor (config: Config)
      ensures this.config == config && rows == []
    {
      this.config := config;
      rows := [];
    }

    /** The `updateMany` of the default flag. */
    method ClearDefaults(owner: string, except: Option<nat>)
      modifies this
      ensures rows == Cleared(old(rows), owner, except)
    {
      var n := 0;
      ghost var before := rows;
      while n < |rows|
        invariant 0 <= n <= |rows| == |before|
        invariant forall k :: 0 <= k < n ==> rows[k] == Cleared(before, owner, except)[k]
        invariant forall k :: n <= k < |rows| ==> rows[k] == before[k]
      {
        if rows[n].owner == owner && Some(rows[n].id) != except {
          rows := rows[n := rows[n].(isDefault := false)];
        }
        n := n + 1;
      }
    }

    method SetDefaultAddress(owner: string, id: nat) returns (r: Result<(), Error>)
      modifies this
      ensures (rows, r) == SetDefault(old(rows), owner, id)
    {
      var at := Find(rows, owner, id);
      if at.None? { return Err(NotFound); }
      var row := rows[at.value];
      ClearDefaults(owner, None);
      rows := rows[at.value := row.(isDefault := true)];
      return Ok(());
    }

    method CreateAddress(owner: string, id: nat, details: string, wantDefault: bool, now: int)
      returns (r: Result<(), Error>)
      modifies this
      ensures (rows, r) == Create(old(rows), config, owner, id, details, wantDefault, now)
    {
      if Count(rows, owner) >= config.limit { return Err(LimitReached); }
      rows := rows + [Row(id, owner, false, false, now, details)];
      if wantDefault { r := SetDefaultAddress(owner, id); } else { r := Ok(()); }
    }

    method UpdateAddress(owner: string, id: nat, details: string, flag: Option<bool>) returns (r: Result<(), Error>)
      modifies this
      ensures (rows, r) == Update(old(rows), config, owner, id, details, flag)
    {
      var at := Find(rows, owner, id);
      if at.None? { return Err(NotFound); }
      var row := rows[at.value].(details := details);
      if flag.Some? { row := row.(isDefault := flag.value); }
      var saved := Save(rows, config.scope, at.value, row);
      if saved.Err? { return Err(saved.error); }
      rows := saved.value;
      if flag == Some(true) { r := SetDefaultAddress(owner, id); } else { r := Ok(()); }
    }

    method RemoveAddress(owner: string, id: nat) returns (r: Result<(), Error>)
      modifies this
      ensures (rows, r) == Remove(old(rows), config, owner, id)
    {
      var at := Find(rows, owner, id);
      if at.None? { return Err(NotFound); }
      var wasDefault := rows[at.value].isDefault;
      rows := rows[at.value := rows[at.value].(deleted := true)];
      if wasDefault {
        ClearDefaults(owner, Some(id));
        var next := Oldest(rows, owner);
        if next.Some? {
          var saved := Save(rows, config.scope, next.value, rows[next.value].(isDefault := true));
          if saved.Err? { return Err(saved.error); }
          rows := saved.value;
        }
      }
      return Ok(());
    }
  }

  // ---------------------------------------------------------------- invariant

  ghost predicate DistinctIds(rows: seq<Row>) {
    forall i, j :: 0 <= i < j < |rows| ==> rows[i].id != rows[j].id
  }

  /** What the index enforces: no two indexed rows of one owner. */
  ghost predicate Unique(rows: seq<Row>, scope: Scope) {
    forall i, j :: 0 <= i < j < |rows| && rows[i].owner == rows[j].owner ==>
      !Indexed(rows[i], scope) || !Indexed(rows[j], scope)
  }

  ghost predicate Bounded(rows: seq<Row>, limit: nat) { forall owner :: Count(rows, owner) <= limit }

  ghost predicate Inv(rows: seq<Row>, c: Config) {
    DistinctIds(rows) && Unique(rows, c.scope) && Bounded(rows, c.limit)
  }

  /** Same rows but for flags, removal marks and details. */
  ghost predicate SameRows(a: seq<Row>, b: seq<Row>) {
    |a| == |b| && forall i :: 0 <= i < |a| ==> a[i].id == b[i].id && a[i].owner == b[i].owner
  }

  lemma {:induction false} SameCount(a: seq<Row>, b: seq<Row>, owner: string)
    requires SameRows(a, b)
    ensures Count(a, owner) == Count(b, owner)
  {
    if a != [] {
      assert forall i :: 0 <= i < |a[1..]| ==> a[1..][i] == a[i + 1] && b[1..][i] == b[i + 1];
      SameCount(a[1..], b[1..], owner);
    }
  }

  lemma SameRowsKeep(a: seq<Row>, b: seq<Row>, c: Config)
    requires Inv(a, c) && SameRows(a, b) && Unique(b, c.scope)
    ensures Inv(b, c)
  {
    forall owner ensures Count(b, owner) <= c.limit { SameCount(a, b, owner); }
  }

  lemma {:induction false} CountSnoc(rows: seq<Row>, r: Row, owner: string)
    ensures Count(rows + [r], owner) == Count(rows, owner) + if r.owner == owner then 1 else 0
  {
    if rows == [] {
      assert [] + [r] == [r] && [r][1..] == [];
    } else {
      assert (rows + [r])[1..] == rows[1..] + [r];
      CountSnoc(rows[1..], r, owner);
    }
  }

  /** `setDefault` leaves its row as the owner's only flagged one, removed rows included. */
  lemma SetDefaultEffect(rows: seq<Row>, owner: string, id: nat)
    requires DistinctIds(rows) && SetDefault(rows, owner, id).1.Ok?
    ensures var after := SetDefault(rows, owner, id).0;
            && SameRows(rows, after)
            && (forall i :: 0 <= i < |after| && after[i].owner == owner ==> (after[i].isDefault <==> after[i].id == id))
            && (forall i :: 0 <= i < |after| && after[i].owner != owner ==> after[i] == rows[i])
            && (forall i :: 0 <= i < |after| ==> after[i].deleted == rows[i].deleted)
            && exists i :: 0 <= i < |after| && Live(after[i], owner) && after[i].id == id
  {
    var at := Find(rows, owner, id).value;
    var after := SetDefault(rows, owner, id).0;
    assert Live(after[at], owner) && after[at].id == id;
    forall i | 0 <= i < |after| && after[i].owner == owner ensures after[i].isDefault <==> after[i].id == id {
      assert i < at ==> rows[i].id != rows[at].id;
      assert at < i ==> rows[at].id != rows[i].id;
    }
  }

  lemma SetDefaultKeepsInv(rows: seq<Row>, c: Config, owner: string, id: nat)
    requires DistinctIds(rows) && Bounded(rows, c.limit) && Unique(rows, c.scope)
    ensures Inv(SetDefault(rows, owner, id).0, c)
  {
    if SetDefault(rows, owner, id).1.Ok? {
      var after := SetDefault(rows, owner, id).0;
      SetDefaultEffect(rows, owner, id);
      hide SetDefault;
      SameRowsKeep(rows, after, c);
    }
  }

  lemma CreateKeepsInv(rows: seq<Row>, c: Config, owner: string, id: nat, details: string, wantDefault: bool, now: int)
    requires Inv(rows, c) && forall i :: 0 <= i < |rows| ==> rows[i].id != id
    ensures Inv(Create(rows, c, owner, id, details, wantDefault, now).0, c)
  {
    hide SetDefault;
    if Count(rows, owner) < c.limit {
      var row := Row(id, owner, false, false, now, details);
      forall o ensures Count(rows + [row], o) <= c.limit { CountSnoc(rows, row, o); }
      assert Inv(rows + [row], c);
      if wantDefault { SetDefaultKeepsInv(rows + [row], c, owner, id); }
    }
  }

  /** A successful save keeps the index. */
  lemma SaveKeepsInv(rows: seq<Row>, c: Config, i: nat, row: Row)
    requires Inv(rows, c) && i < |rows| && row.id == rows[i].id && row.owner == rows[i].owner
    requires Save(rows, c.scope, i, row).Ok?
    ensures Inv(rows[i := row], c)
  {
    var after := rows[i := row];
    forall a, b | 0 <= a < b < |after| && after[a].owner == after[b].owner
      ensures !Indexed(after[a], c.scope) || !Indexed(after[b], c.scope)
    {
      assert a != i && b != i ==> after[a] == rows[a] && after[b] == rows[b];
    }
    SameRowsKeep(rows, after, c);
  }

  lemma UpdateKeepsInv(rows: seq<Row>, c: Config, owner: string, id: nat, details: string, flag: Option<bool>)
    requires Inv(rows, c)
    ensures Inv(Update(rows, c, owner, id, details, flag).0, c)
  {
    hide SetDefault, Save, Inv;
    var at := Find(rows, owner, id);
    if at.Some? {
      var i := at.value;
      var row := rows[i].(details := details, isDefault := if flag.Some? then flag.value else rows[i].isDefault);
      if Save(rows, c.scope, i, row).Ok? {
        SaveKeepsInv(rows, c, i, row);
        SaveIsUpdate(rows, c.scope, i, row);
        if flag == Some(true) { InvParts(rows[i := row], c); SetDefaultKeepsInv(rows[i := row], c, owner, id); }
      }
    }
  }

  lemma SaveIsUpdate(rows: seq<Row>, scope: Scope, i: nat, row: Row)
    requires i < |rows| && Save(rows, scope, i, row).Ok?
    ensures Save(rows, scope, i, row).value == rows[i := row]
  {
  }

  lemma InvParts(rows: seq<Row>, c: Config)
    requires Inv(rows, c)
    ensures DistinctIds(rows) && Bounded(rows, c.limit) && Unique(rows, c.scope)
  {
  }

  // ---------------------------------------------------------------- removal

  /** Soft-deleting the default and clearing the flag of the owner's other rows. */
  function Vacated(rows: seq<Row>, owner: string, i: nat): seq<Row>
    requires i < |rows|
  {
    Cleared(rows[i := rows[i].(deleted := true)], owner, Some(rows[i].id))
  }

  /** Afterwards the removed row is the only flagged one of its owner. */
  lemma VacatedEffect(rows: seq<Row>, owner: string, i: nat)
    requires DistinctIds(rows) && i < |rows| && Live(rows[i], owner) && rows[i].isDefault
    ensures var v := Vacated(rows, owner, i);
            && SameRows(rows, v)
            && v[i].deleted && v[i].isDefault
            && (forall k :: 0 <= k < |v| && k != i && v[k].owner == owner ==> !v[k].isDefault)
            && (forall k :: 0 <= k < |v| && v[k].owner != owner ==> v[k] == rows[k])
            && (forall k :: 0 <= k < |v| ==> (Live(v[k], owner) <==> k != i && Live(rows[k], owner)))
  {
    forall k | 0 <= k < |rows| && k != i ensures rows[k].id != rows[i].id {
      assert k < i ==> rows[k].id != rows[i].id;
      assert i < k ==> rows[i].id != rows[k].id;
    }
  }

  lemma VacatedKeepsInv(rows: seq<Row>, c: Config, owner: string, i: nat)
    requires Inv(rows, c) && i < |rows| && Live(rows[i], owner) && rows[i].isDefault
    ensures Inv(Vacated(rows, owner, i), c)
  {
    VacatedEffect(rows, owner, i);
    hide Vacated;
    var v := Vacated(rows, owner, i);
    forall a, b | 0 <= a < b < |v| && v[a].owner == v[b].owner
      ensures !Indexed(v[a], c.scope) || !Indexed(v[b], c.scope)
    {
      assert v[a].owner != owner ==> v[a] == rows[a] && v[b] == rows[b];
    }
    SameRowsKeep(rows, v, c);
  }

  lemma RemoveKeepsInv(rows: seq<Row>, c: Config, owner: string, id: nat)
    requires Inv(rows, c)
    ensures Inv(Remove(rows, c, owner, id).0, c)
  {
    hide Inv, Save, Cleared;
    var at := Find(rows, owner, id);
    if at.Some? {
      var i := at.value;
      InvParts(rows, c);
      if rows[i].isDefault {
        var v := Vacated(rows, owner, i);
        VacatedKeepsInv(rows, c, owner, i);
        var next := Oldest(v, owner);
        if next.Some? {
          var row := v[next.value].(isDefault := true);
          if Save(v, c.scope, next.value, row).Ok? {
            SaveKeepsInv(v, c, next.value, row);
            SaveIsUpdate(v, c.scope, next.value, row);
          }
        }
      } else {
        PlainRemovalKeepsInv(rows, c, i);
      }
    }
  }

  lemma PlainRemovalKeepsInv(rows: seq<Row>, c: Config, i: nat)
    requires Inv(rows, c) && i < |rows| && !rows[i].isDefault
    ensures Inv(rows[i := rows[i].(deleted := true)], c)
  {
    var after := rows[i := rows[i].(deleted := true)];
    forall a, b | 0 <= a < b < |after| && after[a].owner == after[b].owner
      ensures !Indexed(after[a], c.scope) || !Indexed(after[b], c.scope)
    {
      assert a != i && b != i ==> after[a] == rows[a] && after[b] == rows[b];
    }
    SameRowsKeep(rows, after, c);
  }
}
