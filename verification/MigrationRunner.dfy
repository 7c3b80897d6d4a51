/**
 The migration runner (backend/src/migrations/migrate.js): every file that is not yet
 recorded is applied and then recorded, in file-name order; the process may die anywhere.
 */
module MigrationRunner {
  import opened Wrappers
  import opened JsStrings
  import Sorting

  // ---------------------------------------------------------------- the file list

  predicate Eligible(f: string) { EndsWith(f, ".js") && f != "migrate.js" && f != "000_example.js" }

  function Filtered(dir: seq<string>): (r: seq<string>)
    ensures forall f :: f in r <==> f in dir && Eligible(f)
  {
    if dir == [] then []
    else
      assert dir == [dir[0]] + dir[1..];
      if Eligible(dir[0]) then [dir[0]] + Filtered(dir[1..]) else Filtered(dir[1..])
  }

  function MigrationFiles(dir: seq<string>): seq<string> { SortStrings(Filtered(dir)) }

  lemma {:induction false} FilteredNoDup(dir: seq<string>)
    requires Sorting.NoDup(dir)
    ensures Sorting.NoDup(Filtered(dir))
  {
    if dir != [] {
      assert dir == [dir[0]] + dir[1..];
      assert dir[0] !in dir[1..];
      FilteredNoDup(dir[1..]);
    }
  }

  /** The list holds exactly the eligible files, once each, in name order, however the directory was read. */
  lemma FileListIsCanonical(dir: seq<string>, again: seq<string>)
    requires Sorting.NoDup(dir) && Sorting.NoDup(again)
    requires forall f :: f in dir <==> f in again
    ensures MigrationFiles(dir) == MigrationFiles(again)
    ensures Sorting.Sorted(MigrationFiles(dir), LexLe) && Sorting.NoDup(MigrationFiles(dir))
    ensures forall f :: f in MigrationFiles(dir)
                        <==> f in dir && EndsWith(f, ".js") && f != "migrate.js" && f != "000_example.js"
  {
    FilteredNoDup(dir);
    FilteredNoDup(again);
    SortStringsCanonical(Filtered(dir), Filtered(again));
    LexIsOrder();
    Sorting.SortSorted(Filtered(dir), LexLe);
    Sorting.SortMembers(Filtered(dir), LexLe);
    Sorting.NoDupByMultiset(Filtered(dir), MigrationFiles(dir));
  }

  // ---------------------------------------------------------------- the database

  /** `recorded` is the `migrations` collection in insertion order. */
  datatype Db<S> = Db(data: S, recorded: seq<string>)

  /** What a migration does: all of it, or only its first `n` internal steps. */
  datatype Migrations<!S> = Migrations(up: (string, S) -> S, partial: (string, S, nat) -> S)

  datatype Where = BeforeUp | DuringUp(n: nat) | AfterUp

  /** The process dies at the pending file of that index. */
  datatype Crash = Crash(index: nat, at: Where)

  function Pending(files: seq<string>, recorded: seq<string>): (r: seq<string>)
    ensures forall f :: f in r <==> f in files && f !in recorded
  {
    if files == [] then []
    else
      assert files == [files[0]] + files[1..];
      if files[0] in recorded then Pending(files[1..], recorded)
      else [files[0]] + Pending(files[1..], recorded)
  }

  function Apply<S>(db: Db<S>, ms: Migrations<S>, pending: seq<string>, crash: Option<Crash>): Db<S>
    decreases |pending|
  {
    if pending == [] then db
    else if crash.Some? && crash.value.index == 0 then
      match crash.value.at
      case BeforeUp => db
      case DuringUp(n) => db.(data := ms.partial(pending[0], db.data, n))
      case AfterUp => db.(data := ms.up(pending[0], db.data))
    else
      Apply(Db(ms.up(pending[0], db.data), db.recorded + [pending[0]]), ms, pending[1..], Later(crash))
  }

  function Later(crash: Option<Crash>): Option<Crash> {
    match crash
    case None => None
    case Some(Crash(i, at)) => if i == 0 then None else Some(Crash(i - 1, at))
  }

  function Run<S>(db: Db<S>, ms: Migrations<S>, files: seq<string>, crash: Option<Crash>): Db<S> {
    Apply(db, ms, Pending(files, db.recorded), crash)
  }

  function Runs<S>(db: Db<S>, ms: Migrations<S>, files: seq<string>, crashes: seq<Option<Crash>>): Db<S>
    decreases |crashes|
  {
    if crashes == [] then db else Runs(Run(db, ms, files, crashes[0]), ms, files, crashes[1..])
  }

  class Runner<S> {
    var data: S
    var recorded: seq<string>
    const migrations: Migrations<S>

    constructor (data: S, recorded: seq<string>, migrations: Migrations<S>)
      ensures this.data == data && this.recorded == recorded && this.migrations == migrations
    {
      this.data := data;
      this.recorded := recorded;
      this.migrations := migrations;
    }

    function View(): Db<S> reads this { Db(data, recorded) }

    /** `runMigrations`, with and without `--status`; `crash` is where the process dies, if it does. */
    method RunMigrations(dir: seq<string>, status: bool, crash: Option<Crash>)
      modifies this
      ensures View() == if status then old(View()) else Run(old(View()), migrations, MigrationFiles(dir), crash)
    {
      var files := MigrationFiles(dir);
      var pending := Pending(files, recorded);
      if status { return; }
      ghost var left := crash;
      var i := 0;
      while i < |pending|
        invariant 0 <= i <= |pending|
        invariant left == if crash.Some? && crash.value.index >= i
                          then Some(Crash(crash.value.index - i, crash.value.at)) else None
        invariant Apply(View(), migrations, pending[i..], left)
                  == Run(old(View()), migrations, files, crash)
      {
        var file := pending[i];
        assert pending[i..][1..] == pending[i + 1..];
        if crash.Some? && crash.value.index == i && crash.value.at.BeforeUp? { return; }
        if crash.Some? && crash.value.index == i && crash.value.at.DuringUp? {
          data := migrations.partial(file, data, crash.value.at.n);
          return;
        }
        data := migrations.up(file, data);
        if crash.Some? && crash.value.index == i { return; }
        recorded := recorded + [file];
        left := Later(left);
        i := i + 1;
      }
    }
  }

  // ---------------------------------------------------------------- restart equals clean run

  /** The data after one uninterrupted run of the first `k` files. */
  function Clean<S>(data: S, ms: Migrations<S>, files: seq<string>, k: nat): S
    requires k <= |files|
  {
    if k == 0 then data else ms.up(files[k - 1], Clean(data, ms, files, k - 1))
  }

  /** Running `up` again, whole or after a partial run, ends where the first whole run would have. */
  ghost predicate Restartable<S(!new)>(ms: Migrations<S>) {
    && (forall f, s :: ms.up(f, ms.up(f, s)) == ms.up(f, s))
    && (forall f, s, n :: ms.up(f, ms.partial(f, s, n)) == ms.up(f, s))
  }

  /** `k` files are recorded, and the next `up` leads to the clean state after it. */
  ghost predicate OnTrack<S(!new)>(db: Db<S>, ms: Migrations<S>, start: S, files: seq<string>, k: nat) {
    && k <= |files| && db.recorded == files[..k]
    && (if k == |files| then db.data == Clean(start, ms, files, k)
        else ms.up(files[k], db.data) == Clean(start, ms, files, k + 1))
  }

  lemma {:induction false} PendingIsRest(files: seq<string>, recorded: seq<string>, k: nat)
    requires k <= |files| && forall i :: 0 <= i < |files| ==> (files[i] in recorded <==> i < k)
    ensures Pending(files, recorded) == files[k..]
  {
    if files != [] {
      assert forall i :: 0 <= i < |files[1..]| ==> files[1..][i] == files[i + 1];
      PendingIsRest(files[1..], recorded, if k == 0 then 0 else k - 1);
    }
  }

  lemma PrefixPending(files: seq<string>, k: nat)
    requires Sorting.NoDup(files) && k <= |files|
    ensures Pending(files, files[..k]) == files[k..]
  {
    PendingIsRest(files, files[..k], k);
  }

  lemma {:induction false} ApplyStaysOnTrack<S(!new)>(db: Db<S>, ms: Migrations<S>, start: S, files: seq<string>,
                                                      k: nat, crash: Option<Crash>) returns (k': nat)
    requires Restartable(ms) && OnTrack(db, ms, start, files, k)
    ensures OnTrack(Apply(db, ms, files[k..], crash), ms, start, files, k')
    ensures k <= k' && (crash.None? ==> k' == |files|)
    decreases |files| - k
  {
    if k == |files| || (crash.Some? && crash.value.index == 0) {
      k' := k;
    } else {
      var next := Db(ms.up(files[k], db.data), db.recorded + [files[k]]);
      assert files[k..][1..] == files[k + 1..] && files[..k] + [files[k]] == files[..k + 1];
      assert OnTrack(next, ms, start, files, k + 1);
      k' := ApplyStaysOnTrack(next, ms, start, files, k + 1, Later(crash));
    }
  }

  lemma {:induction false} RunsStayOnTrack<S(!new)>(db: Db<S>, ms: Migrations<S>, start: S, files: seq<string>,
                                                    k: nat, crashes: seq<Option<Crash>>) returns (k': nat)
    requires Sorting.NoDup(files) && Restartable(ms) && OnTrack(db, ms, start, files, k)
    ensures OnTrack(Runs(db, ms, files, crashes), ms, start, files, k')
    ensures k <= k' && (None in crashes ==> k' == |files|)
    decreases |crashes|
  {
    k' := k;
    if crashes != [] {
      PrefixPending(files, k);
      var k1 := ApplyStaysOnTrack(db, ms, start, files, k, crashes[0]);
      k' := RunsStayOnTrack(Run(db, ms, files, crashes[0]), ms, start, files, k1, crashes[1..]);
    }
  }

  /**
   For a fixed file list: whatever crashed, the recorded names are a prefix of the list in
   order, and once one run got through, the database is that of one uninterrupted run.
   */
  lemma RestartEqualsCleanRun<S(!new)>(data: S, ms: Migrations<S>, files: seq<string>, crashes: seq<Option<Crash>>)
    requires Sorting.NoDup(files) && Restartable(ms)
    ensures Runs(Db(data, []), ms, files, crashes).recorded <= files
    ensures None in crashes ==>
              Runs(Db(data, []), ms, files, crashes) == Run(Db(data, []), ms, files, None)
  {
    assert files[..0] == [];
    assert OnTrack(Db(data, []), ms, data, files, 0);
    var k := RunsStayOnTrack(Db(data, []), ms, data, files, 0, crashes);
    var once: seq<Option<Crash>> := [None];
    var k1 := RunsStayOnTrack(Db(data, []), ms, data, files, 0, once);
    assert once[1..] == [];
    assert Runs(Db(data, []), ms, files, once) == Run(Db(data, []), ms, files, None);
  }

  /** Each migration that completed was applied in order: what a clean run computes. */
  lemma {:induction false} CleanRunComputes<S(!new)>(db: Db<S>, ms: Migrations<S>, start: S, files: seq<string>, k: nat)
    requires k <= |files| && db == Db(Clean(start, ms, files, k), files[..k])
    ensures Apply(db, ms, files[k..], None) == Db(Clean(start, ms, files, |files|), files)
    decreases |files| - k
  {
    if k == |files| {
      assert files[..k] == files;
    } else {
      var next := Db(ms.up(files[k], db.data), db.recorded + [files[k]]);
      assert files[k..][1..] == files[k + 1..] && files[..k] + [files[k]] == files[..k + 1];
      CleanRunComputes(next, ms, start, files, k + 1);
    }
  }

  /** A clean run that stops before file `n`, or ends there. */
  lemma {:induction false} StoppedRunComputes<S(!new)>(db: Db<S>, ms: Migrations<S>, start: S,
                                                       files: seq<string>, k: nat, n: nat)
    requires k <= n <= |files| && db == Db(Clean(start, ms, files, k), files[..k])
    ensures Apply(db, ms, files[k..], Some(Crash(n - k, BeforeUp))) == Db(Clean(start, ms, files, n), files[..n])
    decreases n - k
  {
    if k < n {
      var next := Db(ms.up(files[k], db.data), db.recorded + [files[k]]);
      assert files[k..][1..] == files[k + 1..] && files[..k] + [files[k]] == files[..k + 1];
      StoppedRunComputes(next, ms, start, files, k + 1, n);
    }
  }

  /** A run that dies between the `up` of file `n` and its record. */
  lemma {:induction false} CrashedRunComputes<S(!new)>(db: Db<S>, ms: Migrations<S>, start: S,
                                                       files: seq<string>, k: nat, n: nat)
    requires k <= n < |files| && db == Db(Clean(start, ms, files, k), files[..k])
    ensures Apply(db, ms, files[k..], Some(Crash(n - k, AfterUp))) == Db(Clean(start, ms, files, n + 1), files[..n])
    decreases n - k
  {
    if k < n {
      var next := Db(ms.up(files[k], db.data), db.recorded + [files[k]]);
      assert files[k..][1..] == files[k + 1..] && files[..k] + [files[k]] == files[..k + 1];
      CrashedRunComputes(next, ms, start, files, k + 1, n);
    }
  }

  /**
   Dying between the `up` of any file and its record is harmless exactly when that `up` is
   idempotent there: the restarted run then records the file over the same data as a run that
   never died, and ends where that run ends.
   */
  lemma CrashBeforeRecordIff<S(!new)>(data: S, ms: Migrations<S>, files: seq<string>, n: nat)
    requires Sorting.NoDup(files) && n < |files|
    ensures var start := Db(data, []);
            var crashed := Run(start, ms, files, Some(Crash(n, AfterUp)));
            var redo := Run(crashed, ms, files, Some(Crash(1, BeforeUp)));
            var clean := Run(start, ms, files, Some(Crash(n + 1, BeforeUp)));
            var once := Clean(data, ms, files, n + 1);
            && crashed == Db(once, files[..n])
            && redo.recorded == clean.recorded == files[..n + 1]
            && (redo == clean <==> ms.up(files[n], once) == once)
            && (ms.up(files[n], once) == once ==> Run(crashed, ms, files, None) == Run(start, ms, files, None))
  {
    assert files[..0] == [] && files[0..] == files;
    PrefixPending(files, 0);
    var start := Db(data, []);
    CrashedRunComputes(start, ms, data, files, 0, n);
    StoppedRunComputes(start, ms, data, files, 0, n + 1);
    CleanRunComputes(start, ms, data, files, 0);
    var once := Clean(data, ms, files, n + 1);
    var crashed := Db(once, files[..n]);
    PrefixPending(files, n);
    RedoStep(crashed, ms, files, n);
    if ms.up(files[n], once) == once { CleanRunComputes(Db(once, files[..n + 1]), ms, data, files, n + 1); }
  }

  /** The first step of a restart at file `n`, alone and followed by the rest. */
  lemma RedoStep<S(!new)>(db: Db<S>, ms: Migrations<S>, files: seq<string>, n: nat)
    requires n < |files| && db.recorded == files[..n]
    ensures var next := Db(ms.up(files[n], db.data), files[..n + 1]);
            && Apply(db, ms, files[n..], Some(Crash(1, BeforeUp))) == next
            && Apply(db, ms, files[n..], None) == Apply(next, ms, files[n + 1..], None)
  {
    assert files[n..][0] == files[n] && files[n..][1..] == files[n + 1..];
    assert files[..n] + [files[n]] == files[..n + 1];
  }

  /**
   A file added later to a fully applied list runs after everything else. The records stay a
   prefix of the name order exactly when the new name sorts last.
   */
  lemma AddedFileInOrderIff<S(!new)>(db: Db<S>, ms: Migrations<S>, before: seq<string>, g: string, after: seq<string>)
    requires Sorting.NoDup(before + [g] + after)
    requires db.recorded == before + after
    ensures var db' := Run(db, ms, before + [g] + after, None);
            && db' == Db(ms.up(g, db.data), before + after + [g])
            && (db'.recorded <= before + [g] + after <==> after == [])
  {
    var files := before + [g] + after;
    assert g !in before + after by {
      assert forall i :: 0 <= i < |before| ==> files[i] == before[i];
      assert forall i :: 0 <= i < |after| ==> files[|before| + 1 + i] == after[i];
      assert files[|before|] == g;
    }
    PendingOne(before, g, after, before + after);
    assert Pending(files, db.recorded) == [g];
    assert Apply(db, ms, [g], None) == Db(ms.up(g, db.data), db.recorded + [g]) by { assert [g][1..] == []; }
    if after == [] {
      assert before + after + [g] == files;
    } else {
      assert (before + after + [g])[|before|] == after[0];
      assert files[|before|] == g && files[|before| + 1] == after[0];
      assert files[|before|] != files[|before| + 1];
      assert (before + after + [g])[|before|] != files[|before|];
    }
  }

  lemma {:induction false} PendingOne(before: seq<string>, g: string, after: seq<string>, recorded: seq<string>)
    requires forall f :: f in before || f in after ==> f in recorded
    requires g !in recorded
    ensures Pending(before + [g] + after, recorded) == [g]
  {
    if before == [] {
      assert ([] + [g] + after)[1..] == after;
      var rest := Pending(after, recorded);
      assert forall f :: f !in rest;
      Sorting.EmptyIfNoMember(rest);
    } else {
      assert (before + [g] + after)[1..] == before[1..] + [g] + after;
      PendingOne(before[1..], g, after, recorded);
    }
  }
}
