/**
 The ledger's writes (backend/src/services/ledger.service.js) when the process dies between
 two of them: which crashes a retry or the repair job makes good, and which it cannot.
 */
module LedgerCrashes {
  import opened Wrappers
  import opened LedgerBalances
  import opened Ledger
  import JsMap

  // ---------------------------------------------------------------- a reversal that dies

  /** A reversal that is created fits into what is unreversed, and its post adds just one journal. */
  lemma ReversalPosts(b: Books, r: Reversal)
    requires Reverse(b, r).1 == Ok(true)
    ensures r.originalKey in b.journals.entries
    ensures var (original, js) := (b.journals.entries[r.originalKey], b.journals.entries);
            var (after, result) := Post(b, ReversalRequest(original, r));
            && r.key !in js && result == Ok(true)
            && after.journals.entries == js[r.key := after.journals.entries[r.key]]
            && r.amount > 0 && r.amount <= original.total - original.reversed
  {
    hide Check, ReversalLines, Posted;
    PostedJournal(b, ReversalRequest(b.journals.entries[r.originalKey], r));
  }

  /**
   A reversal writes three times: the post (one transaction), the back link on the new
   journal, the mark on the original. These are the books after it died having done `writes`.
   */
  function ReverseDied(b: Books, r: Reversal, writes: nat): Books
    requires Reverse(b, r).1 == Ok(true)
  {
    ReversalPosts(b, r);
    hide Post, Reverse;
    var posted := Post(b, ReversalRequest(b.journals.entries[r.originalKey], r)).0;
    match writes
    case 0 => b
    case 1 => posted
    case 2 => posted.(journals := Linked(posted.journals, r))
    case _ => Reverse(b, r).0
  }

  /** A retry ends in the books of an undisturbed reversal exactly if nothing or all had been written. */
  lemma RetryHealsIff(b: Books, r: Reversal, writes: nat)
    requires Inv(b) && Reverse(b, r).1 == Ok(true)
    ensures Reverse(ReverseDied(b, r, writes), r).0 == Reverse(b, r).0 <==> writes == 0 || writes >= 3
    ensures writes == 1 || writes == 2 ==>
              Reverse(ReverseDied(b, r, writes), r) == (ReverseDied(b, r, writes), Ok(false))
  {
    hide ReversalRequest, Check, Inv, Posted;
    if writes == 1 || writes == 2 {
      DiedKeeps(b, r, writes);
      RetryFinds(b, ReverseDied(b, r, writes), r);
      ReverseAppends(b, r);
      hide Reverse, Post;
    } else if writes >= 3 {
      RetriedReversalIff(b, r);
    }
  }

  /** Before the mark, the original is as it was, and the new journal is there. */
  lemma DiedKeeps(b: Books, r: Reversal, writes: nat)
    requires Reverse(b, r).1 == Ok(true) && (writes == 1 || writes == 2)
    ensures var (died, original) := (ReverseDied(b, r, writes), r.originalKey);
            && r.key in died.journals.entries && original in died.journals.entries && original in b.journals.entries
            && r.amount > 0 && died.journals.entries[original] == b.journals.entries[original]
  {
    ReversalPosts(b, r);
    hide Reverse, Post;
  }

  lemma RetryFinds(b: Books, died: Books, r: Reversal)
    requires Reverse(b, r).1 == Ok(true) && r.originalKey in b.journals.entries
    requires r.key in died.journals.entries && r.originalKey in died.journals.entries
    requires died.journals.entries[r.originalKey] == b.journals.entries[r.originalKey]
    ensures Reverse(died, r) == (died, Ok(false))
  {
    hide ReversalLines, Check, Posted, MarkReversed;
  }

  /**
   Dying before the mark forgets the reversal for good. A retry creates and marks nothing, and
   under another key everything that was unreversed before can be reversed once more: together
   more than was posted.
   */
  lemma CrashBeforeMarkForgets(b: Books, r: Reversal, otherKey: string)
    requires Inv(b) && Reverse(b, r).1 == Ok(true)
    requires otherKey != "" && otherKey != r.key && otherKey !in b.journals.entries
    ensures var original := b.journals.entries[r.originalKey];
            var (left, died) := (original.total - original.reversed, ReverseDied(b, r, 1));
            && Reverse(died, r) == (died, Ok(false))
            && Reverse(died, r.(key := otherKey)).1 == Ok(true)
            && Reverse(died, r.(key := otherKey, amount := left)).1 == Ok(true)
            && original.reversed + r.amount + left > original.total
  {
    hide ReversalLines, Inv, Posted, Check, Reverse, Post;
    ReversalPosts(b, r);
    var left := b.journals.entries[r.originalKey].total - b.journals.entries[r.originalKey].reversed;
    RetryHealsIff(b, r, 1);
    ReversesAgain(b, r, r.(key := otherKey));
    ReversesAgain(b, r, r.(key := otherKey, amount := left));
  }

  lemma ReversesAgain(b: Books, r: Reversal, again: Reversal)
    requires Inv(b) && Reverse(b, r).1 == Ok(true)
    requires again == r.(key := again.key, amount := again.amount)
    requires again.key != "" && again.key != r.key && again.key !in b.journals.entries
    requires 0 < again.amount <= b.journals.entries[r.originalKey].total - b.journals.entries[r.originalKey].reversed
    ensures Reverse(ReverseDied(b, r, 1), again).1 == Ok(true)
  {
    hide ReversalLines, Inv, Posted, Check, KINDS, KindPasses, Known;
    var req := ReversalRequest(b.journals.entries[r.originalKey], r);
    PostedJournal(b, req);
    PostKeepsInv(b, req);
    ReversalOutcome(b, r);
    ReversalOutcome(Post(b, req).0, again);
  }

  // ---------------------------------------------------------------- crashes over whole runs

  /** One call and how many writes it did before the process died; a post is one transaction. */
  datatype Attempt = Attempt(op: Op, writes: nat)

  function After(b: Books, t: Attempt): Books {
    match t.op
    case PostOp(req) => if t.writes == 0 then b else Post(b, req).0
    case ReverseOp(r) => if Reverse(b, r).1 == Ok(true) then ReverseDied(b, r, t.writes) else Reverse(b, r).0
  }

  function AfterAll(b: Books, ts: seq<Attempt>): Books
    decreases |ts|
  {
    if ts == [] then b else AfterAll(After(b, ts[0]), ts[1..])
  }

  predicate Reverses(b: Books, t: Attempt, k: string) {
    t.op.ReverseOp? && t.op.reversal.originalKey == k && Reverse(b, t.op.reversal).1 == Ok(true) && t.writes > 0
  }

  /** What the journals posted over the run reverse of journal `k`, marked or not. */
  function ReversedOf(b: Books, ts: seq<Attempt>, k: string): int
    decreases |ts|
  {
    if ts == [] then 0
    else (if Reverses(b, ts[0], k) then ts[0].op.reversal.amount else 0) + ReversedOf(After(b, ts[0]), ts[1..], k)
  }

  /** The part of it whose mark was lost in a crash. */
  function LostOf(b: Books, ts: seq<Attempt>, k: string): int
    decreases |ts|
  {
    if ts == [] then 0
    else (if Reverses(b, ts[0], k) && ts[0].writes < 3 then ts[0].op.reversal.amount else 0)
         + LostOf(After(b, ts[0]), ts[1..], k)
  }

  function MarkOf(b: Books, k: string): int { if k in b.journals.entries then b.journals.entries[k].reversed else 0 }

  /** Marks stay within the totals, whatever crashed. */
  ghost predicate Within(b: Books) {
    forall k :: k in b.journals.entries ==> 0 <= b.journals.entries[k].reversed <= b.journals.entries[k].total
  }

  lemma PostMarks(b: Books, req: Request, k: string)
    ensures MarkOf(Post(b, req).0, k) == MarkOf(b, k)
    ensures Within(b) ==> Within(Post(b, req).0)
  {
    hide NonZero, FirstError, FoldLines, KINDS, KindPasses;
    if Check(req).None? {
      PostedJournal(b, req);
      CheckedIsSound(req);
    }
  }

  lemma LinkMarks(js: Journals, r: Reversal)
    requires r.key in js.entries
    ensures Linked(js, r).entries.Keys == js.entries.Keys
    ensures forall k :: k in js.entries ==> Linked(js, r).entries[k].reversed == js.entries[k].reversed
                                            && Linked(js, r).entries[k].total == js.entries[k].total
  {
  }

  lemma MarkMarks(js: Journals, r: Reversal)
    requires r.key in js.entries && r.originalKey in js.entries && r.key != r.originalKey
    ensures MarkReversed(js, r).entries.Keys == js.entries.Keys
    ensures forall k :: k in js.entries ==>
              && MarkReversed(js, r).entries[k].total == js.entries[k].total
              && MarkReversed(js, r).entries[k].reversed
                 == js.entries[k].reversed + if k == r.originalKey then r.amount else 0
  {
    hide Linked;
    LinkMarks(js, r);
  }

  /** The reversal's mark is the only write that moves a mark, and it stays within the total. */
  lemma ReversalMarks(b: Books, r: Reversal, writes: nat, k: string)
    requires Within(b) && Reverse(b, r).1 == Ok(true)
    ensures Within(ReverseDied(b, r, writes))
    ensures MarkOf(ReverseDied(b, r, writes), k)
            == MarkOf(b, k) + if k == r.originalKey && writes >= 3 then r.amount else 0
  {
    hide Check, ReversalRequest, Posted, Linked, MarkReversed;
    var req := ReversalRequest(b.journals.entries[r.originalKey], r);
    ReversalPosts(b, r);
    PostMarks(b, req, k);
    hide Post;
    var posted := Post(b, req).0;
    if writes == 2 { LinkMarks(posted.journals, r); }
    if writes >= 3 { MarkMarks(posted.journals, r); }
  }

  lemma AttemptMarks(b: Books, t: Attempt, k: string)
    requires Within(b)
    ensures Within(After(b, t))
    ensures MarkOf(After(b, t), k)
            == MarkOf(b, k) + if Reverses(b, t, k) && t.writes >= 3 then t.op.reversal.amount else 0
  {
    hide Post, ReverseDied, ReversalRequest, Within, MarkOf;
    match t.op
    case PostOp(req) => PostMarks(b, req, k);
    case ReverseOp(r) =>
      if Reverse(b, r).1 == Ok(true) {
        ReversalMarks(b, r, t.writes, k);
      } else if r.amount > 0 && r.originalKey in b.journals.entries {
        PostMarks(b, ReversalRequest(b.journals.entries[r.originalKey], r), k);
      }
  }

  lemma {:induction false} MarksOverRun(b: Books, ts: seq<Attempt>, k: string)
    requires Within(b)
    ensures Within(AfterAll(b, ts))
    ensures MarkOf(b, k) + ReversedOf(b, ts, k) == MarkOf(AfterAll(b, ts), k) + LostOf(b, ts, k)
    decreases |ts|
  {
    hide After, Reverses, Within, MarkOf;
    if ts != [] {
      AttemptMarks(b, ts[0], k);
      MarksOverRun(After(b, ts[0]), ts[1..], k);
    }
  }

  /**
   Over every run, however often the process dies: what was reversed of a journal is its mark
   and what crashes lost of it. So more is reversed than was posted exactly when the losses
   exceed what the journal still shows as unreversed.
   */
  lemma OverReversedIff(ts: seq<Attempt>, k: string)
    ensures var b := AfterAll(EMPTY_BOOKS, ts);
            k in b.journals.entries ==>
              var j := b.journals.entries[k];
              && 0 <= j.reversed <= j.total
              && ReversedOf(EMPTY_BOOKS, ts, k) == j.reversed + LostOf(EMPTY_BOOKS, ts, k)
              && (ReversedOf(EMPTY_BOOKS, ts, k) > j.total <==> LostOf(EMPTY_BOOKS, ts, k) > j.total - j.reversed)
  {
    MarksOverRun(EMPTY_BOOKS, ts, k);
    hide AfterAll, ReversedOf, LostOf;
  }

  // ---------------------------------------------------------------- reversals that overlap

  /** `reverseProportional` on an original read before other calls changed it; the mark is an increment. */
  function ReverseRead(b: Books, read: Journal, r: Reversal): (Books, Result<bool, Error>)
    requires r.originalKey in b.journals.entries
  {
    if r.amount <= 0 then (b, Err(InvalidAmount))
    else if r.amount > read.total - read.reversed then (b, Err(OverReversal))
    else
      var (after, result) := Post(b, ReversalRequest(read, r));
      if result == Ok(true) then (after.(journals := MarkReversed(after.journals, r)), result) else (after, result)
  }

  lemma ReadAtOnce(b: Books, r: Reversal)
    requires r.originalKey in b.journals.entries
    ensures ReverseRead(b, b.journals.entries[r.originalKey], r) == Reverse(b, r)
  {
    hide Post, MarkReversed;
  }

  /**
   Two reversals of one journal that both read it before either marks it: both succeed
   whenever each alone would, and the journal is over-reversed exactly when together they
   exceed what was left.
   */
  lemma OverlappingReversalsIff(b: Books, first: Reversal, second: Reversal)
    requires Inv(b) && Reverse(b, first).1 == Ok(true) && Reverse(b, second).1 == Ok(true)
    requires second.originalKey == first.originalKey && second.key != first.key
    ensures var read := b.journals.entries[first.originalKey];
            var between := Reverse(b, first).0;
            && first.originalKey in between.journals.entries
            && var (after, result) := ReverseRead(between, read, second);
            && result == Ok(true) && first.originalKey in after.journals.entries
            && var mark := after.journals.entries[first.originalKey].reversed;
            && mark == read.reversed + first.amount + second.amount
            && (mark > read.total <==> first.amount + second.amount > read.total - read.reversed)
  {
    hide ReversalLines, Check, Inv, Posted, MarkReversed, KINDS;
    var (read, between) := (b.journals.entries[first.originalKey], Reverse(b, first).0);
    ReversalPosts(b, second);
    ReverseAppends(b, first);
    hide Reverse;
    PostsToo(b, between, ReversalRequest(read, second));
    var posted := Post(between, ReversalRequest(read, second)).0;
    MarkTouches(posted.journals, second);
  }

  lemma PostsToo(a: Books, b: Books, req: Request)
    requires Post(a, req).1 == Ok(true) && req.key !in b.journals.entries
    ensures Post(b, req).1 == Ok(true)
    ensures Post(b, req).0.journals.entries
            == b.journals.entries[req.key := Post(b, req).0.journals.entries[req.key]]
  {
    hide Check;
    PostedIsChecked(a, req);
    PostedJournal(b, req);
  }

  // ---------------------------------------------------------------- a post that dies

  lemma GroupsListed(lines: seq<Line>)
    requires AllOneSided(lines)
    ensures forall n :: 0 <= n <= |Group(lines).order| ==> Listed(Group(lines).order[..n], Group(lines).entries)
  {
    hide Known, Group;
    OneSidedIsKnown(lines);
  }

  /** A post that dies after `writes` database writes: the journal, then the entries, then the accounts. */
  function PostCrashed(b: Books, req: Request, writes: nat): Books
    requires Check(req).None?
  {
    var lines := NonZero(req.lines);
    GroupsListed(lines);
    if writes == 0 then b
    else
      var entries := if writes - 1 <= |lines| then writes - 1 else |lines|;
      var rest := writes - 1 - entries;
      var groups := Group(lines);
      var accounts := groups.order[..if rest <= |groups.order| then rest else |groups.order|];
      Books(JsMap.Set(b.journals, req.key, JournalOf(req)), b.entries + lines[..entries],
            IncAll(b.balances, accounts, groups.entries))
  }

  lemma {:induction false} MissingLineShows(lines: seq<Line>, n: nat)
    requires AllOneSided(lines) && n < |lines|
    requires forall i :: 0 <= i < |lines| ==> lines[i].debit != 0 || lines[i].credit != 0
    ensures exists a :: TotalsOf(lines[..n], a).debit != TotalsOf(lines, a).debit
                        || TotalsOf(lines[..n], a).credit != TotalsOf(lines, a).credit
  {
    hide Known;
    var rest := lines[n..];
    var a := lines[n].account;
    assert lines == lines[..n] + rest;
    TotalsConcat(lines[..n], rest, a);
    assert OneSided(lines[n]);
    assert rest[0] == lines[n] && forall i :: 0 <= i < |rest| ==> rest[i] == lines[n + i];
    TotalsNonNegative(rest[1..], a);
  }

  lemma {:induction false} TotalsNonNegative(lines: seq<Line>, a: string)
    requires AllOneSided(lines)
    ensures TotalsOf(lines, a).debit >= 0 && TotalsOf(lines, a).credit >= 0
  {
    hide Known;
    if lines != [] {
      assert OneSided(lines[0]);
      TotalsNonNegative(lines[1..], a);
    }
  }

  /** The amounts the entries give are those of a completed post. */
  ghost predicate SameAmounts(x: seq<Line>, y: seq<Line>) {
    forall a :: TotalsOf(x, a).debit == TotalsOf(y, a).debit && TotalsOf(x, a).credit == TotalsOf(y, a).credit
  }

  /**
   The repair job recomputes from the entries, so it makes good a crash exactly when all
   entries had been written; a retry never writes the rest, because the journal is there.
   */
  lemma RepairClosesWindowIff(b: Books, req: Request, writes: nat)
    requires Post(b, req).1 == Ok(true) && writes > 0
    ensures var crashed := PostCrashed(b, req, writes);
            && (SameAmounts(crashed.entries, Post(b, req).0.entries) <==> writes > |NonZero(req.lines)|)
            && Post(crashed, req) == (crashed, Ok(false))
  {
    hide FoldLines, IncAll, Group, TotalsOf, NonZero, FirstError, Known, JournalOf;
    var lines := NonZero(req.lines);
    var crashed := PostCrashed(b, req, writes);
    if writes > |lines| {
      assert lines[..|lines|] == lines;
    } else {
      var n := writes - 1;
      MissingLineShows(lines, n);
      var a :| TotalsOf(lines[..n], a).debit != TotalsOf(lines, a).debit
               || TotalsOf(lines[..n], a).credit != TotalsOf(lines, a).credit;
      TotalsConcat(b.entries, lines[..n], a);
      TotalsConcat(b.entries, lines, a);
      assert crashed.entries == b.entries + lines[..n];
    }
  }

  // ---------------------------------------------------------------- what the repair job restores

  /** The same debit and credit totals on every account. */
  ghost predicate SameView(x: Balances, y: Balances) {
    forall a :: TotalsAt(x, a).debit == TotalsAt(y, a).debit && TotalsAt(x, a).credit == TotalsAt(y, a).credit
  }

  lemma {:induction false} IncAllElsewhere(b: Balances, accounts: seq<string>, t: map<string, Totals>, a: string)
    requires Listed(accounts, t) && a !in accounts
    ensures TotalsAt(IncAll(b, accounts, t), a) == TotalsAt(b, a)
    decreases |accounts|
  {
    hide Known, Plus, TotalsAt;
    if accounts != [] {
      IncEffect(b, accounts[0], t[accounts[0]]);
      IncAllElsewhere(Inc(b, accounts[0], t[accounts[0]]), accounts[1..], t, a);
    }
  }

  lemma {:induction false} NotAmong(lines: seq<Line>, a: string)
    requires forall i :: 0 <= i < |lines| ==> lines[i].account != a
    ensures TotalsOf(lines, a) == ZERO
  {
    hide Plus, LineTotals;
    PlusZero(ZERO);
    if lines != [] {
      assert lines[0].account != a;
      NotAmong(lines[1..], a);
    }
  }

  lemma EntriesElsewhere(entries: seq<Line>, lines: seq<Line>, n: nat, a: string)
    requires AllKnown(lines) && !Known(a) && n <= |lines|
    ensures TotalsOf(entries + lines[..n], a) == TotalsOf(entries, a)
  {
    hide Known, TotalsOf, Plus;
    TotalsConcat(entries, lines[..n], a);
    NotAmong(lines[..n], a);
    PlusZero(TotalsOf(entries, a));
  }

  lemma ViewElsewhere(b: Balances, lines: seq<Line>, n: nat, a: string)
    requires AllOneSided(lines) && !Known(a) && n <= |Group(lines).order|
    requires Listed(Group(lines).order[..n], Group(lines).entries)
    ensures TotalsAt(IncAll(b, Group(lines).order[..n], Group(lines).entries), a) == TotalsAt(b, a)
  {
    hide Known, Group, IncAll, TotalsAt;
    IncAllElsewhere(b, Group(lines).order[..n], Group(lines).entries, a);
  }

  /** Only what passes for an account can drift after a crash. */
  lemma DriftedIsKnown(b: Books, req: Request, writes: nat, a: string)
    requires Inv(b) && Check(req).None? && !Known(a)
    ensures !Drifts(PostCrashed(b, req, writes).entries, PostCrashed(b, req, writes).balances, a)
  {
    hide Known, Group, IncAll, TotalsOf, TotalsAt, Check, JournalsSound, Flatten, Typed, Covered, Listed, NonZero;
    hide SumDebit, SumCredit, AllOneSided;
    assert TotalsAt(b.balances, a) == TotalsOf(b.entries, a);
    if writes > 0 {
      var lines := NonZero(req.lines);
      CheckedIsKnown(req);
      GroupsListed(lines);
      var n := if writes - 1 <= |lines| then writes - 1 else |lines|;
      var (rest, groups) := (writes - 1 - n, Group(lines).order);
      ViewElsewhere(b.balances, lines, if rest <= |groups| then rest else |groups|, a);
      EntriesElsewhere(b.entries, lines, n, a);
    }
  }

  lemma CheckedIsKnown(req: Request)
    requires Check(req).None?
    ensures AllOneSided(NonZero(req.lines)) && AllKnown(NonZero(req.lines))
  {
    hide Known;
    OneSidedIsKnown(NonZero(req.lines));
  }

  /**
   The repair job after a post that died: rewriting the drifted accounts gives the view of the
   completed post exactly when every entry had been written.
   */
  lemma RepairCompletesIff(b: Books, req: Request, writes: nat, drifted: seq<string>)
    requires Inv(b) && Post(b, req).1 == Ok(true) && writes > 0
    requires var crashed := PostCrashed(b, req, writes);
             forall a :: a in drifted <==> Drifts(crashed.entries, crashed.balances, a)
    ensures var crashed := PostCrashed(b, req, writes);
            var (repaired, done) := Repair(crashed.entries, crashed.balances, drifted);
            && done
            && (SameView(repaired, Post(b, req).0.balances) <==> writes > |NonZero(req.lines)|)
  {
    PostedIsChecked(b, req);
    hide Known, Repair, PostCrashed, Post, Inv, TotalsOf, TotalsAt, NonZero, Check, Drifts, SameView, SameAmounts;
    var (crashed, complete) := (PostCrashed(b, req, writes), Post(b, req).0);
    forall i | 0 <= i < |drifted| ensures Known(drifted[i]) {
      if !Known(drifted[i]) { DriftedIsKnown(b, req, writes, drifted[i]); }
    }
    PostNeverDrifts(b, req);
    var repaired := Repair(crashed.entries, crashed.balances, drifted).0;
    forall a ensures !Drifts(crashed.entries, repaired, a) {
      RepairRestores(crashed.entries, crashed.balances, drifted, a);
    }
    RepairRestores(crashed.entries, crashed.balances, drifted, "");
    RepairClosesWindowIff(b, req, writes);
    ViewsMatch(crashed.entries, repaired, complete.entries, complete.balances);
  }

  lemma PostedIsChecked(b: Books, req: Request)
    requires Post(b, req).1 == Ok(true)
    ensures Check(req).None?
  {
    hide NonZero, FirstError;
  }

  lemma PostNeverDrifts(b: Books, req: Request)
    requires Inv(b)
    ensures var after := Post(b, req).0; forall a :: !Drifts(after.entries, after.balances, a)
  {
    hide Post, TotalsAt, TotalsOf, JournalsSound, Flatten;
    PostKeepsInv(b, req);
    var after := Post(b, req).0;
    assert forall a :: TotalsAt(after.balances, a) == TotalsOf(after.entries, a);
  }

  lemma ViewsMatch(p: seq<Line>, x: Balances, q: seq<Line>, y: Balances)
    requires forall a :: !Drifts(p, x, a)
    requires forall a :: !Drifts(q, y, a)
    ensures SameView(x, y) <==> SameAmounts(p, q)
  {
    hide TotalsAt, TotalsOf;
    forall a ensures TotalsAt(x, a).debit == TotalsOf(p, a).debit && TotalsAt(x, a).credit == TotalsOf(p, a).credit
             ensures TotalsAt(y, a).debit == TotalsOf(q, a).debit && TotalsAt(y, a).credit == TotalsOf(q, a).credit
    {
      assert !Drifts(p, x, a) && !Drifts(q, y, a);
    }
  }
}
