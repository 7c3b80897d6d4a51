/**
 The double-entry ledger (backend/src/services/ledger.service.js): one write path that
 posts balanced journals once, proportional reversals, and the job that compares the
 materialised balances with the entries and repairs them.
 */
module Ledger {
  import opened Wrappers
  import opened LedgerBalances
  import JsMap
  import Sorting
  import Money

  const KINDS: set<string> := {
    "sale_captured", "psp_settled", "refund_issued", "payout_initiated", "payout_reversed", "cod_collected",
    "cod_receivable_waived", "tds_deducted", "commission_invoiced", "invoice_paid", "adjustment", "statutory_deposit",
    "statutory_deposit_reverted", "wallet_topup", "wallet_backfill", "vendor_backfill", "statutory_backfill",
    "gst_backfill", "bank_backfill"}

  /** `toUpperCase` of one character, as far as ASCII can come out of it. */
  function UpperOf(c: char): string {
    if 'a' <= c <= 'z' then [c - 'a' + 'A']
    else
      match c
      case '\U{0131}' => "I"
      case '\U{017F}' => "S"
      case '\U{00DF}' => "SS"
      case '\U{FB00}' => "FF"
      case '\U{FB01}' => "FI"
      case '\U{FB02}' => "FL"
      case '\U{FB03}' => "FFI"
      case '\U{FB04}' => "FFL"
      case '\U{FB05}' => "ST"
      case '\U{FB06}' => "ST"
      case _ => [c]
  }

  function Upper(s: string): string { if s == [] then [] else UpperOf(s[0]) + Upper(s[1..]) }

  /** The enum's keys are its values in upper case. */
  const KIND_KEYS: set<string> := set k | k in KINDS :: Upper(k)

  /** The first check lets through every kind, and every text whose upper case is an enum key. */
  predicate KindPasses(kind: string) { Upper(kind) in KIND_KEYS || kind in KINDS }

  datatype Journal = Journal(kind: string, lines: seq<Line>, total: int, reversed: int, reversalOf: Option<string>)

  type Journals = JsMap.Map<string, Journal>

  /** Journals by idempotency key in posting order, the flattened entries, the balance view. */
  datatype Books = Books(journals: Journals, entries: seq<Line>, balances: Balances)

  datatype Error =
    | BadKind | KeyRequired | Empty | NegativeAmount | BothSides | UnknownAccount | Unbalanced | PeriodClosed
    | SchemaKind
    | InvalidAmount | OriginalNotFound | OverReversal

  /** `closed`: the fiscal period of the posting is closed. */
  datatype Request = Request(kind: string, key: string, lines: seq<Line>, closed: bool)

  // ---------------------------------------------------------------- validation

  predicate OneSided(l: Line) {
    l.debit >= 0 && l.credit >= 0 && (l.debit == 0 || l.credit == 0) && Known(l.account)
  }

  predicate AllOneSided(lines: seq<Line>) { forall i :: 0 <= i < |lines| ==> OneSided(lines[i]) }

  function NonZero(lines: seq<Line>): (r: seq<Line>)
    ensures SumDebit(r) == SumDebit(lines) && SumCredit(r) == SumCredit(lines)
    ensures forall i :: 0 <= i < |r| ==> r[i] in lines && (r[i].debit != 0 || r[i].credit != 0)
  {
    if lines == [] then []
    else
      assert lines == [lines[0]] + lines[1..];
      if lines[0].debit != 0 || lines[0].credit != 0 then [lines[0]] + NonZero(lines[1..]) else NonZero(lines[1..])
  }

  function LineError(l: Line): Option<Error> {
    if l.debit < 0 || l.credit < 0 then Some(NegativeAmount)
    else if l.debit > 0 && l.credit > 0 then Some(BothSides)
    else if !Known(l.account) then Some(UnknownAccount)
    else None
  }

  function FirstError(lines: seq<Line>): (e: Option<Error>)
    ensures e.None? <==> AllOneSided(lines)
  {
    if lines == [] then None
    else
      assert lines == [lines[0]] + lines[1..];
      if LineError(lines[0]).Some? then LineError(lines[0]) else FirstError(lines[1..])
  }

  function Check(req: Request): Option<Error> {
    var lines := NonZero(req.lines);
    if !KindPasses(req.kind) then Some(BadKind)
    else if req.key == "" then Some(KeyRequired)
    else if lines == [] then Some(Empty)
    else if FirstError(lines).Some? then FirstError(lines)
    else if SumDebit(lines) != SumCredit(lines) then Some(Unbalanced)
    else None
  }

  // ---------------------------------------------------------------- posting

  function JournalOf(req: Request): Journal {
    var lines := NonZero(req.lines);
    Journal(req.kind, lines, SumDebit(lines), 0, None)
  }

  function Posted(b: Books, req: Request): Books
    requires Check(req).None?
  {
    var lines := NonZero(req.lines);
    OneSidedIsKnown(lines);
    Books(JsMap.Set(b.journals, req.key, JournalOf(req)), b.entries + lines, FoldLines(b.balances, lines))
  }

  lemma OneSidedIsKnown(lines: seq<Line>)
    requires AllOneSided(lines)
    ensures AllKnown(lines)
  {
  }

  /** The books after `post` and whether a journal was created. */
  function Post(b: Books, req: Request): (Books, Result<bool, Error>) {
    match Check(req)
    case Some(e) => (b, Err(e))
    case None =>
      if req.key in b.journals.entries then (b, Ok(false))
      else if req.closed then (b, Err(PeriodClosed))
      else if req.kind !in KINDS then (b, Err(SchemaKind))
      else (Posted(b, req), Ok(true))
  }

  // ---------------------------------------------------------------- invariant

  predicate SoundJournal(j: Journal) {
    AllOneSided(j.lines) && SumDebit(j.lines) == SumCredit(j.lines) == j.total && 0 <= j.reversed <= j.total
  }

  function Flatten(order: seq<string>, m: map<string, Journal>): seq<Line>
    requires forall k :: k in order ==> k in m
  {
    if order == [] then []
    else
      assert order[|order| - 1] in order;
      Flatten(order[..|order| - 1], m) + m[order[|order| - 1]].lines
  }

  /** What the journals marked as reversals of `key` amount to. */
  function ReversedSum(order: seq<string>, m: map<string, Journal>, key: string): int
    requires forall k :: k in order ==> k in m
  {
    if order == [] then 0
    else
      assert order[|order| - 1] in order;
      var j := m[order[|order| - 1]];
      ReversedSum(order[..|order| - 1], m, key) + if j.reversalOf == Some(key) then j.total else 0
  }

  /** The view agrees with the entries, account by account. */
  ghost predicate InStep(entries: seq<Line>, balances: Balances) {
    forall a :: TotalsAt(balances, a) == TotalsOf(entries, a)
  }

  ghost predicate Covered(entries: seq<Line>, balances: Balances) {
    forall i :: 0 <= i < |entries| ==> entries[i].account in balances.entries
  }

  ghost predicate JournalsSound(js: Journals) {
    && (forall k :: k in js.entries ==> SoundJournal(js.entries[k]))
    && (forall k :: k in js.entries ==> js.entries[k].reversed == ReversedSum(js.order, js.entries, k))
    && (forall k :: k in js.entries && js.entries[k].reversalOf.Some? ==> js.entries[k].reversalOf.value in js.entries)
  }

  ghost predicate Inv(b: Books) {
    && JournalsSound(b.journals)
    && b.entries == Flatten(b.journals.order, b.journals.entries)
    && SumDebit(b.entries) == SumCredit(b.entries)
    && Typed(b.balances) && Covered(b.entries, b.balances) && InStep(b.entries, b.balances)
  }

  // ---------------------------------------------------------------- posting keeps the invariant

  lemma {:induction false} FlattenSame(order: seq<string>, m: map<string, Journal>, n: map<string, Journal>)
    requires forall k :: k in order ==> k in m && k in n && m[k].lines == n[k].lines
    ensures Flatten(order, m) == Flatten(order, n)
    decreases |order|
  {
    if order != [] {
      assert order[|order| - 1] in order;
      FlattenSame(order[..|order| - 1], m, n);
    }
  }

  lemma {:induction false} ReversedSame(order: seq<string>, m: map<string, Journal>,
                                            n: map<string, Journal>, key: string)
    requires forall k :: k in order ==> k in m && k in n
    requires forall k :: k in order ==>
               (m[k].reversalOf == Some(key) <==> n[k].reversalOf == Some(key)) && m[k].total == n[k].total
    ensures ReversedSum(order, m, key) == ReversedSum(order, n, key)
    decreases |order|
  {
    if order != [] {
      assert order[|order| - 1] in order;
      ReversedSame(order[..|order| - 1], m, n, key);
    }
  }

  lemma AppendedOrder(order: seq<string>, k: string)
    ensures order + [k] != [] && (order + [k])[..|order + [k]| - 1] == order && (order + [k])[|order + [k]| - 1] == k
  {
  }

  lemma FlattenAppend(js: Journals, k: string, j: Journal)
    requires k !in js.entries
    ensures var after := JsMap.Set(js, k, j);
            Flatten(after.order, after.entries) == Flatten(js.order, js.entries) + j.lines
  {
    var after := JsMap.Set(js, k, j);
    AppendedOrder(js.order, k);
    FlattenSame(js.order, after.entries, js.entries);
  }

  lemma ReversedAppend(js: Journals, k: string, j: Journal, key: string)
    requires k !in js.entries
    ensures var after := JsMap.Set(js, k, j);
            ReversedSum(after.order, after.entries, key)
            == ReversedSum(js.order, js.entries, key) + if j.reversalOf == Some(key) then j.total else 0
  {
    var after := JsMap.Set(js, k, j);
    AppendedOrder(js.order, k);
    ReversedSame(js.order, after.entries, js.entries, key);
  }

  lemma {:induction false} NobodyReverses(order: seq<string>, m: map<string, Journal>, key: string)
    requires forall k :: k in order ==> k in m && m[k].reversalOf != Some(key)
    ensures ReversedSum(order, m, key) == 0
    decreases |order|
  {
    if order != [] {
      assert order[|order| - 1] in order;
      NobodyReverses(order[..|order| - 1], m, key);
    }
  }

  /** A checked request makes a sound journal. */
  lemma CheckedIsSound(req: Request)
    requires Check(req).None?
    ensures SoundJournal(JournalOf(req))
  {
    SumsNonNegative(NonZero(req.lines));
  }

  lemma {:induction false} SumsNonNegative(lines: seq<Line>)
    requires AllOneSided(lines)
    ensures SumDebit(lines) >= 0 && SumCredit(lines) >= 0
  {
    if lines != [] {
      assert forall i :: 0 <= i < |lines[1..]| ==> lines[1..][i] == lines[i + 1];
      assert OneSided(lines[0]);
      SumsNonNegative(lines[1..]);
    }
  }

  lemma AddJournal(js: Journals, k: string, j: Journal)
    requires JournalsSound(js) && k !in js.entries && SoundJournal(j) && j.reversed == 0 && j.reversalOf == None
    ensures JournalsSound(JsMap.Set(js, k, j))
  {
    hide SoundJournal, ReversedSum;
    var after := JsMap.Set(js, k, j);
    forall key | key in after.entries
      ensures after.entries[key].reversed == ReversedSum(after.order, after.entries, key)
    {
      ReversedAppend(js, k, j, key);
      if key == k { NobodyReverses(js.order, js.entries, k); }
    }
  }

  lemma ViewKeeps(entries: seq<Line>, balances: Balances, lines: seq<Line>)
    requires AllKnown(lines)
    requires Typed(balances) && Covered(entries, balances) && InStep(entries, balances)
    ensures var after := FoldLines(balances, lines);
            Typed(after) && Covered(entries + lines, after) && InStep(entries + lines, after)
  {
    hide FoldLines, TotalsOf, TotalsAt, Plus, Typed, Known;
    var after := FoldLines(balances, lines);
    FoldLinesCovers(balances, lines);
    forall a ensures TotalsAt(after, a) == TotalsOf(entries + lines, a) {
      FoldLinesTotals(balances, lines, a);
      TotalsConcat(entries, lines, a);
    }
    forall i | 0 <= i < |entries + lines| ensures (entries + lines)[i].account in after.entries {
      if i >= |entries| { assert lines[i - |entries|] in lines; }
    }
  }

  /** Posting keeps every promise of the ledger, and a failing or repeated post changes nothing. */
  lemma PostKeepsInv(b: Books, req: Request)
    requires Inv(b)
    ensures Inv(Post(b, req).0)
    ensures Post(b, req).1 != Ok(true) ==> Post(b, req).0 == b
  {
    hide SumDebit, SumCredit, FoldLines, Flatten, NonZero, FirstError;
    hide JournalsSound, SoundJournal, Typed, Covered, InStep;
    if Post(b, req).1 == Ok(true) {
      var lines := NonZero(req.lines);
      CheckedIsSound(req);
      OneSidedIsKnown(lines);
      AddJournal(b.journals, req.key, JournalOf(req));
      FlattenAppend(b.journals, req.key, JournalOf(req));
      SumsConcat(b.entries, lines);
      ViewKeeps(b.entries, b.balances, lines);
    }
  }

  /** Idempotence: once a key is posted, posting it again with any valid content creates nothing. */
  lemma RepeatedPostIsNoOp(b: Books, first: Request, again: Request)
    requires Post(b, first).1.Ok? && again.key == first.key && Check(again).None?
    ensures Post(Post(b, first).0, again) == (Post(b, first).0, Ok(false))
  {
  }

  predicate Zero(l: Line) { l.debit == 0 && l.credit == 0 }

  /** Of several bad lines the first one names the error; lines without an amount are not looked at. */
  lemma {:induction false} FirstErrorIs(lines: seq<Line>, i: nat)
    requires i < |lines| && !Zero(lines[i]) && !OneSided(lines[i])
    requires forall j :: 0 <= j < i ==> Zero(lines[j]) || OneSided(lines[j])
    ensures FirstError(NonZero(lines))
            == Some(if lines[i].debit < 0 || lines[i].credit < 0 then NegativeAmount
                    else if lines[i].debit > 0 && lines[i].credit > 0 then BothSides
                    else UnknownAccount)
  {
    hide Known;
    var (l, rest) := (lines[0], NonZero(lines[1..]));
    if !Zero(l) { assert ([l] + rest)[1..] == rest && FirstError([l] + rest)
                         == if LineError(l).Some? then LineError(l) else FirstError(rest); }
    if i > 0 { FirstErrorIs(lines[1..], i - 1); }
  }

  lemma {:induction false} NonZeroIs(lines: seq<Line>)
    ensures NonZero(lines) == [] <==> forall i :: 0 <= i < |lines| ==> Zero(lines[i])
    ensures AllOneSided(NonZero(lines)) <==> forall i :: 0 <= i < |lines| ==> Zero(lines[i]) || OneSided(lines[i])
  {
    hide Known;
    if lines != [] {
      var (l, rest) := (lines[0], lines[1..]);
      NonZeroIs(rest);
      assert forall i :: 0 <= i < |rest| ==> rest[i] == lines[i + 1];
      assert NonZero(lines) == if Zero(l) then NonZero(rest) else [l] + NonZero(rest);
      if !Zero(l) {
        var r := [l] + NonZero(rest);
        assert r[0] == l && forall i :: 0 <= i < |NonZero(rest)| ==> r[i + 1] == NonZero(rest)[i];
      }
    }
  }

  /** The outcome of a post, in every case. */
  lemma PostOutcome(b: Books, req: Request)
    ensures var (lines, r) := (req.lines, Post(b, req).1);
            if !KindPasses(req.kind) then r == Err(BadKind)
            else if req.key == "" then r == Err(KeyRequired)
            else if forall i :: 0 <= i < |lines| ==> Zero(lines[i]) then r == Err(Empty)
            else if exists i :: 0 <= i < |lines| && !Zero(lines[i]) && !OneSided(lines[i]) then
              r in {Err(NegativeAmount), Err(BothSides), Err(UnknownAccount)}
            else if SumDebit(lines) != SumCredit(lines) then r == Err(Unbalanced)
            else if req.key in b.journals.entries then r == Ok(false)
            else if req.closed then r == Err(PeriodClosed)
            else if req.kind !in KINDS then r == Err(SchemaKind)
            else r == Ok(true)
    ensures Post(b, req).1 != Ok(true) ==> Post(b, req).0 == b
  {
    hide NonZero, SumDebit, SumCredit, OneSided, KINDS, KindPasses, Posted;
    NonZeroIs(req.lines);
    ErrorsAre(NonZero(req.lines));
  }

  lemma {:induction false} ErrorsAre(lines: seq<Line>)
    ensures FirstError(lines) in {None, Some(NegativeAmount), Some(BothSides), Some(UnknownAccount)}
  {
    hide Known;
    if lines != [] { ErrorsAre(lines[1..]); }
  }

  /** The first check passes exactly what equals one of the kinds up to capitals. */
  lemma KindPassesIff(kind: string)
    ensures KindPasses(kind) <==> exists k :: k in KINDS && Upper(k) == Upper(kind)
  {
    hide KINDS, Upper;
  }

  /** What a created journal is, and where it goes. */
  lemma PostedIs(b: Books, req: Request)
    requires Post(b, req).1 == Ok(true)
    ensures var after := Post(b, req).0;
            && req.key !in b.journals.entries && req.key in after.journals.entries
            && var j := after.journals.entries[req.key];
            && j.kind == req.kind && j.reversed == 0 && j.reversalOf == None
            && j.total == SumDebit(req.lines) == SumCredit(req.lines)
            && after.entries == b.entries + j.lines && j.lines == NonZero(req.lines)
            && after.journals.entries == b.journals.entries[req.key := j]
            && after.journals.order == b.journals.order + [req.key]
  {
    hide FoldLines, FirstError;
  }

  // ---------------------------------------------------------------- kinds in capitals

  lemma {:induction false} UpperConcat(x: string, y: string)
    ensures Upper(x + y) == Upper(x) + Upper(y)
  {
    if x == [] {
      assert x + y == y;
    } else {
      assert (x + y)[1..] == x[1..] + y;
      UpperConcat(x[1..], y);
    }
  }

  lemma UpperTwiceOf(c: char)
    ensures Upper(UpperOf(c)) == UpperOf(c)
  {
    var u := UpperOf(c);
    assert |u| <= 3 && forall i :: 0 <= i < |u| ==> UpperOf(u[i]) == [u[i]];
    FixedUpper(u);
  }

  lemma {:induction false} FixedUpper(u: string)
    requires forall i :: 0 <= i < |u| ==> UpperOf(u[i]) == [u[i]]
    ensures Upper(u) == u
  {
    hide UpperOf;
    if u != [] { FixedUpper(u[1..]); }
  }

  lemma {:induction false} UpperTwice(s: string)
    ensures Upper(Upper(s)) == Upper(s)
  {
    hide UpperOf;
    if s != [] {
      UpperConcat(UpperOf(s[0]), Upper(s[1..]));
      UpperTwiceOf(s[0]);
      UpperTwice(s[1..]);
    }
  }

  lemma KindsAreLower()
    ensures forall k :: k in KINDS ==> |k| > 0 && 'a' <= k[0] <= 'z'
  {
  }

  /**
   A kind in capitals passes the first check like the kind itself, so a posted key still
   answers with its journal; a new one gets as far as the schema, which refuses it.
   */
  lemma KindInCapitals(b: Books, req: Request)
    requires req.kind in KINDS && Check(req).None?
    ensures var shout := req.(kind := Upper(req.kind));
            && KindPasses(shout.kind) && shout.kind !in KINDS
            && Post(b, shout) == (b, if req.key in b.journals.entries then Ok(false)
                                     else if req.closed then Err(PeriodClosed)
                                     else Err(SchemaKind))
  {
    hide KINDS, NonZero, FirstError, SumDebit, SumCredit, UpperOf;
    KindsAreLower();
    UpperTwice(req.kind);
    CapitalFirst(req.kind);
  }

  lemma CapitalFirst(s: string)
    requires s != "" && 'a' <= s[0] <= 'z'
    ensures Upper(s) != "" && 'A' <= Upper(s)[0] <= 'Z'
  {
  }

  // ---------------------------------------------------------------- the accounting identity

  lemma SumsSnoc(lines: seq<Line>, i: nat)
    requires i < |lines|
    ensures SumDebit(lines[..i + 1]) == SumDebit(lines[..i]) + lines[i].debit
    ensures SumCredit(lines[..i + 1]) == SumCredit(lines[..i]) + lines[i].credit
  {
    assert lines[..i + 1] == lines[..i] + [lines[i]];
    SumsConcat(lines[..i], [lines[i]]);
    assert [lines[i]][1..] == [];
  }

  /** With the view in step, the two sides of the natural balances differ by what the entries differ. */
  lemma SidesDiffer(entries: seq<Line>, balances: Balances)
    requires Covered(entries, balances) && InStep(entries, balances)
    ensures forall a :: a in balances.order ==> a in balances.entries
    ensures NaturalSum(balances.order, balances.entries, true) - NaturalSum(balances.order, balances.entries, false)
            == SumDebit(entries) - SumCredit(entries)
  {
    hide TotalsOf, NaturalSum, NetSum;
    forall a | a in balances.order ensures balances.entries[a].totals == TotalsOf(entries, a) {
      assert TotalsAt(balances, a) == TotalsOf(entries, a);
    }
    NaturalSumsDiffer(balances.order, balances.entries, entries);
    NetSumIsDifference(balances.order, entries);
  }

  /** Over all accounts, the two sides of the trial balance and of the natural balances agree. */
  lemma AccountingIdentity(b: Books)
    requires Inv(b)
    ensures SumDebit(b.entries) == SumCredit(b.entries)
    ensures forall a :: a in b.balances.order ==> a in b.balances.entries
    ensures NaturalSum(b.balances.order, b.balances.entries, true)
            == NaturalSum(b.balances.order, b.balances.entries, false)
  {
    hide TotalsOf, NaturalSum, JournalsSound, Flatten, InStep, Covered;
    SidesDiffer(b.entries, b.balances);
  }

  // ---------------------------------------------------------------- reversals

  datatype Reversal = Reversal(originalKey: string, amount: int, counter: string, kind: string, key: string,
                               ref: string, closed: bool)

  function CreditLines(lines: seq<Line>): (r: seq<Line>)
    ensures forall i :: 0 <= i < |r| ==> r[i].credit > 0 && r[i] in lines
  {
    if lines == [] then []
    else
      assert lines == [lines[0]] + lines[1..];
      if lines[0].credit > 0 then [lines[0]] + CreditLines(lines[1..]) else CreditLines(lines[1..])
  }

  function CreditWeights(lines: seq<Line>): (w: seq<real>)
    ensures |w| == |lines|
  {
    seq(|lines|, i requires 0 <= i < |lines| => lines[i].credit as real)
  }

  /** How much of `amount` each credit line gives back. */
  function GivenBack(original: Journal, amount: int): (shares: seq<int>)
    ensures |shares| == |CreditLines(original.lines)|
  {
    Money.Allocate(amount, CreditWeights(CreditLines(original.lines)))
  }

  function DebitLines(credits: seq<Line>, shares: seq<int>): seq<Line>
    requires |credits| == |shares|
  {
    if credits == [] then []
    else
      (if shares[0] > 0 then [credits[0].(debit := shares[0], credit := 0)] else [])
      + DebitLines(credits[1..], shares[1..])
  }

  function ReversalLines(original: Journal, amount: int, counter: string, ref: string): seq<Line> {
    DebitLines(CreditLines(original.lines), GivenBack(original, amount)) + [Line(counter, 0, amount, ref)]
  }

  function ReversalRequest(original: Journal, r: Reversal): Request {
    Request(r.kind, r.key, ReversalLines(original, r.amount, r.counter, r.ref), r.closed)
  }

  /** The first update after a created reversal: the new journal's back link. */
  function Linked(js: Journals, r: Reversal): Journals
    requires r.key in js.entries
  {
    JsMap.Set(js, r.key, js.entries[r.key].(reversalOf := Some(r.originalKey)))
  }

  /** The two updates after a created reversal: the back link, then the original's `reversedPaise`. */
  function MarkReversed(js: Journals, r: Reversal): Journals
    requires r.key in js.entries && r.originalKey in js.entries
  {
    var linked := Linked(js, r);
    var original := linked.entries[r.originalKey];
    JsMap.Set(linked, r.originalKey, original.(reversed := original.reversed + r.amount))
  }

  function Reverse(b: Books, r: Reversal): (Books, Result<bool, Error>) {
    if r.amount <= 0 then (b, Err(InvalidAmount))
    else if r.originalKey !in b.journals.entries then (b, Err(OriginalNotFound))
    else
      var original := b.journals.entries[r.originalKey];
      if r.amount > original.total - original.reversed then (b, Err(OverReversal))
      else
        var (after, result) := Post(b, ReversalRequest(original, r));
        if result == Ok(true) then (after.(journals := MarkReversed(after.journals, r)), result)
        else (after, result)
  }

  lemma {:induction false} CreditSums(lines: seq<Line>)
    requires AllOneSided(lines)
    ensures SumCredit(CreditLines(lines)) == SumCredit(lines)
  {
    if lines != [] {
      assert OneSided(lines[0]);
      assert forall i :: 0 <= i < |lines[1..]| ==> lines[1..][i] == lines[i + 1];
      CreditSums(lines[1..]);
    }
  }

  lemma {:induction false} DebitLinesSum(credits: seq<Line>, shares: seq<int>)
    requires |credits| == |shares|
    requires forall i :: 0 <= i < |shares| ==> shares[i] >= 0
    requires forall i :: 0 <= i < |credits| ==> Known(credits[i].account)
    ensures SumDebit(DebitLines(credits, shares)) == Money.Sum(shares) && SumCredit(DebitLines(credits, shares)) == 0
    ensures AllOneSided(DebitLines(credits, shares))
    decreases |credits|
  {
    hide Known;
    if credits != [] {
      var rest := DebitLines(credits[1..], shares[1..]);
      DebitLinesSum(credits[1..], shares[1..]);
      var head := if shares[0] > 0 then [credits[0].(debit := shares[0], credit := 0)] else [];
      assert DebitLines(credits, shares) == head + rest;
      SumsConcat(head, rest);
      assert head != [] ==> head[1..] == [];
    }
  }

  /**
   A reversal balances by construction and credits exactly the amount: of all validation
   errors only a wrong kind, a missing key and an unknown counter account are left.
   */
  lemma ReversalBalances(original: Journal, r: Reversal)
    requires SoundJournal(original) && 0 < r.amount <= original.total
    ensures var lines := ReversalLines(original, r.amount, r.counter, r.ref);
            SumDebit(lines) == SumCredit(lines) == r.amount
    ensures Check(ReversalRequest(original, r))
            == if !KindPasses(r.kind) then Some(BadKind)
               else if r.key == "" then Some(KeyRequired)
               else if !Known(r.counter) then Some(UnknownAccount)
               else None
  {
    hide Known, CreditLines, DebitLines, Money.Allocate;
    var credits := CreditLines(original.lines);
    var shares := GivenBack(original, r.amount);
    CreditSums(original.lines);
    assert credits != [] by { NoCredit(credits); }
    Money.AllocationSumsIff(r.amount, CreditWeights(credits));
    forall i | 0 <= i < |shares| ensures shares[i] >= 0 {
      Money.AllocationKeepsSign(r.amount, CreditWeights(credits), i);
    }
    forall i | 0 <= i < |credits| ensures Known(credits[i].account) {
      assert credits[i] in original.lines;
    }
    DebitLinesSum(credits, shares);
    BalancedTail(DebitLines(credits, shares), Line(r.counter, 0, r.amount, r.ref));
  }

  /** The outcome of a reversal on sound books, in every case. */
  lemma ReversalOutcome(b: Books, r: Reversal)
    requires Inv(b)
    ensures Reverse(b, r).1
            == if r.amount <= 0 then Err(InvalidAmount)
               else if r.originalKey !in b.journals.entries then Err(OriginalNotFound)
               else
                 var original := b.journals.entries[r.originalKey];
                 if r.amount > original.total - original.reversed then Err(OverReversal)
                 else if !KindPasses(r.kind) then Err(BadKind)
                 else if r.key == "" then Err(KeyRequired)
                 else if !Known(r.counter) then Err(UnknownAccount)
                 else if r.key in b.journals.entries then Ok(false)
                 else if r.closed then Err(PeriodClosed)
                 else if r.kind !in KINDS then Err(SchemaKind)
                 else Ok(true)
  {
    hide Check, ReversalLines, Known, KINDS, KindPasses, AllOneSided, SumDebit, SumCredit;
    hide Flatten, Typed, Covered, InStep;
    if r.amount > 0 && r.originalKey in b.journals.entries {
      var original := b.journals.entries[r.originalKey];
      assert SoundJournal(original);
      if r.amount <= original.total - original.reversed { ReversalBalances(original, r); }
    }
  }

  lemma NoCredit(credits: seq<Line>)
    ensures credits == [] ==> SumCredit(credits) == 0
  {
  }

  lemma BalancedTail(debits: seq<Line>, last: Line)
    requires AllOneSided(debits) && SumCredit(debits) == 0 && SumDebit(debits) == last.credit > 0 && last.debit == 0
    ensures SumDebit(debits + [last]) == SumCredit(debits + [last]) == last.credit
    ensures FirstError(NonZero(debits + [last])) == if Known(last.account) then None else Some(UnknownAccount)
    ensures NonZero(debits + [last]) != []
  {
    hide Known;
    SumsConcat(debits, [last]);
    assert [last][1..] == [];
    assert SumDebit([last]) == 0 && SumCredit([last]) == last.credit;
    ErrorAtLast(debits, last);
  }

  lemma ErrorAtLast(debits: seq<Line>, last: Line)
    requires AllOneSided(debits) && last.debit == 0 && last.credit > 0
    ensures FirstError(NonZero(debits + [last])) == if Known(last.account) then None else Some(UnknownAccount)
    ensures NonZero(debits + [last]) != []
  {
    hide Known, OneSided, FirstError, NonZero;
    NonZeroSnoc(debits, last);
    FirstErrorSnoc(NonZero(debits), last);
  }

  lemma {:induction false} NonZeroSnoc(lines: seq<Line>, last: Line)
    requires last.credit != 0 && AllOneSided(lines)
    ensures NonZero(lines + [last]) == NonZero(lines) + [last]
    ensures AllOneSided(NonZero(lines))
    decreases |lines|
  {
    hide OneSided;
    if lines == [] {
      assert [] + [last] == [last] && [last][1..] == [];
    } else {
      assert (lines + [last])[1..] == lines[1..] + [last];
      NonZeroSnoc(lines[1..], last);
    }
  }

  lemma {:induction false} FirstErrorSnoc(lines: seq<Line>, last: Line)
    requires AllOneSided(lines)
    ensures FirstError(lines + [last]) == LineError(last)
    decreases |lines|
  {
    hide Known;
    if lines == [] {
      assert [] + [last] == [last] && [last][1..] == [];
    } else {
      assert (lines + [last])[1..] == lines[1..] + [last];
      assert OneSided(lines[0]);
      FirstErrorSnoc(lines[1..], last);
    }
  }

  lemma MarkKeepsJournals(js: Journals, j: Journal, r: Reversal)
    requires JournalsSound(js) && r.originalKey in js.entries && r.key !in js.entries
    requires SoundJournal(j) && j.reversed == 0 && j.reversalOf == None && j.total == r.amount
    requires 0 < r.amount <= js.entries[r.originalKey].total - js.entries[r.originalKey].reversed
    ensures var posted := JsMap.Set(js, r.key, j);
            var marked := MarkReversed(posted, r);
            JournalsSound(marked) && Flatten(marked.order, marked.entries) == Flatten(posted.order, posted.entries)
  {
    hide ReversedSum, Flatten, SoundJournal, JournalsSound, MarkReversed;
    var posted := JsMap.Set(js, r.key, j);
    var marked := MarkReversed(posted, r);
    var (linked, original) := (j.(reversalOf := Some(r.originalKey)), js.entries[r.originalKey]);
    var taken := original.(reversed := original.reversed + r.amount);
    MarkEffect(js, j, r);
    JournalIsSound(js, r.originalKey);
    SoundMarks(j, original, r);
    FlattenSame(posted.order, marked.entries, posted.entries);
    MarkedSound(js, marked, r, linked, taken);
  }

  lemma MarkEffect(js: Journals, j: Journal, r: Reversal)
    requires r.originalKey in js.entries && r.key !in js.entries
    ensures var marked := MarkReversed(JsMap.Set(js, r.key, j), r);
            var o := js.entries[r.originalKey];
            && marked.order == js.order + [r.key]
            && marked.entries == js.entries[r.key := j.(reversalOf := Some(r.originalKey))]
                                           [r.originalKey := o.(reversed := o.reversed + r.amount)]
  {
  }

  lemma JournalIsSound(js: Journals, k: string)
    requires JournalsSound(js) && k in js.entries
    ensures SoundJournal(js.entries[k])
  {
  }

  lemma MarkedSound(js: Journals, marked: Journals, r: Reversal, linked: Journal, taken: Journal)
    requires JournalsSound(js) && r.originalKey in js.entries && r.key !in js.entries
    requires SoundJournal(linked) && SoundJournal(taken)
    requires linked.reversed == 0 && linked.reversalOf == Some(r.originalKey) && linked.total == r.amount
    requires var o := js.entries[r.originalKey]; taken == o.(reversed := o.reversed + r.amount)
    requires marked.order == js.order + [r.key]
    requires marked.entries == js.entries[r.key := linked][r.originalKey := taken]
    ensures JournalsSound(marked)
  {
    hide ReversedSum, SoundJournal;
    forall k | k in marked.entries ensures marked.entries[k].reversed == ReversedSum(marked.order, marked.entries, k) {
      MarkedSum(js, marked, r, k);
      if k == r.key { NobodyReverses(js.order, js.entries, k); }
    }
  }

  lemma SoundMarks(j: Journal, original: Journal, r: Reversal)
    requires SoundJournal(j) && SoundJournal(original) && 0 < r.amount <= original.total - original.reversed
    ensures SoundJournal(j.(reversalOf := Some(r.originalKey)))
    ensures SoundJournal(original.(reversed := original.reversed + r.amount))
  {
    hide AllOneSided, SumDebit, SumCredit;
  }

  lemma MarkedSum(js: Journals, marked: Journals, r: Reversal, k: string)
    requires r.key !in js.entries && marked.order == js.order + [r.key]
    requires marked.entries[r.key].reversalOf == Some(r.originalKey)
    requires forall x :: x in js.order ==> marked.entries[x].reversalOf == js.entries[x].reversalOf
    requires forall x :: x in js.order ==> marked.entries[x].total == js.entries[x].total
    ensures ReversedSum(marked.order, marked.entries, k)
            == ReversedSum(js.order, js.entries, k) + if k == r.originalKey then marked.entries[r.key].total else 0
  {
    AppendedOrder(js.order, r.key);
    ReversedSame(js.order, marked.entries, js.entries, k);
  }

  lemma ReverseKeepsInv(b: Books, r: Reversal)
    requires Inv(b)
    ensures Inv(Reverse(b, r).0)
    ensures Reverse(b, r).1 != Ok(true) ==> Reverse(b, r).0 == b
  {
    hide SumDebit, SumCredit, Flatten, SoundJournal, Typed, Covered, InStep, ReversalLines, Check;
    if Reverse(b, r).1 == Ok(true) {
      var original := b.journals.entries[r.originalKey];
      var req := ReversalRequest(original, r);
      PostKeepsInv(b, req);
      ReversalIsSound(original, r);
      hide Posted, JournalOf;
      PostedJournal(b, req);
      MarkKeepsJournals(b.journals, JournalOf(req), r);
    } else {
      if r.amount > 0 && r.originalKey in b.journals.entries {
        PostKeepsInv(b, ReversalRequest(b.journals.entries[r.originalKey], r));
      }
    }
  }

  lemma PostedJournal(b: Books, req: Request)
    requires Check(req).None?
    ensures Posted(b, req).journals == JsMap.Set(b.journals, req.key, JournalOf(req))
    ensures JournalOf(req).reversed == 0 && JournalOf(req).reversalOf == None
  {
  }

  lemma ReversalIsSound(original: Journal, r: Reversal)
    requires SoundJournal(original) && 0 < r.amount <= original.total - original.reversed
    requires Check(ReversalRequest(original, r)).None?
    ensures SoundJournal(JournalOf(ReversalRequest(original, r)))
    ensures JournalOf(ReversalRequest(original, r)).total == r.amount
  {
    hide ReversalLines, AllOneSided, Check, KINDS, KindPasses;
    CheckedIsSound(ReversalRequest(original, r));
    ReversalBalances(original, r);
  }

  // ---------------------------------------------------------------- runs

  datatype Op = PostOp(req: Request) | ReverseOp(reversal: Reversal)

  function Apply(b: Books, op: Op): Books {
    match op
    case PostOp(req) => Post(b, req).0
    case ReverseOp(r) => Reverse(b, r).0
  }

  function Run(b: Books, ops: seq<Op>): Books
    decreases |ops|
  {
    if ops == [] then b else Run(Apply(b, ops[0]), ops[1..])
  }

  const EMPTY_BOOKS := Books(JsMap.Empty(), [], JsMap.Empty())

  lemma EmptyInv()
    ensures Inv(EMPTY_BOOKS)
  {
  }

  lemma {:induction false} RunKeepsInv(b: Books, ops: seq<Op>)
    requires Inv(b)
    ensures Inv(Run(b, ops))
    decreases |ops|
  {
    hide Inv, Post, Reverse;
    if ops != [] {
      match ops[0] {
        case PostOp(req) => PostKeepsInv(b, req);
        case ReverseOp(r) => ReverseKeepsInv(b, r);
      }
      RunKeepsInv(Apply(b, ops[0]), ops[1..]);
    }
  }

  /**
   Whatever was posted and reversed: every journal balances, its reversals add up to what it
   is marked with and never exceed it, the trial balance is even, every account's balance is
   the sum of its entries, and the two sides of the natural balances agree.
   */
  lemma BooksAlwaysBalance(ops: seq<Op>)
    ensures var b := Run(EMPTY_BOOKS, ops);
            && (forall k :: k in b.journals.entries ==>
                  var j := b.journals.entries[k];
                  && SumDebit(j.lines) == SumCredit(j.lines) == j.total
                  && ReversedSum(b.journals.order, b.journals.entries, k) == j.reversed <= j.total)
            && b.entries == Flatten(b.journals.order, b.journals.entries)
            && SumDebit(b.entries) == SumCredit(b.entries)
            && (forall a :: TotalsAt(b.balances, a) == TotalsOf(b.entries, a))
            && (forall a :: a in b.balances.order ==> a in b.balances.entries)
            && NaturalSum(b.balances.order, b.balances.entries, true)
               == NaturalSum(b.balances.order, b.balances.entries, false)
  {
    EmptyInv();
    RunKeepsInv(EMPTY_BOOKS, ops);
    hide Run, SumDebit, SumCredit, ReversedSum, Flatten, TotalsOf, TotalsAt, NaturalSum;
    AccountingIdentity(Run(EMPTY_BOOKS, ops));
  }

  // ---------------------------------------------------------------- retried and repeated reversals

  /**
   Retrying a reversal that went through: the second call is the promised no-op exactly when
   as much again is still unreversed; otherwise it fails as an over-reversal before the key is looked up.
   */
  lemma RetriedReversalIff(b: Books, r: Reversal)
    requires Inv(b) && Reverse(b, r).1 == Ok(true)
    ensures var after := Reverse(b, r).0;
            && r.originalKey in after.journals.entries
            && var original := after.journals.entries[r.originalKey];
            && (Reverse(after, r) == (after, Ok(false)) <==> r.amount <= original.total - original.reversed)
            && (Reverse(after, r) == (after, Err(OverReversal)) <==> r.amount > original.total - original.reversed)
  {
    hide ReversalLines, Check, Inv, Posted;
    var original := b.journals.entries[r.originalKey];
    var req := ReversalRequest(original, r);
    PostedJournal(b, req);
    var after := Reverse(b, r).0;
    assert after.journals.entries[r.originalKey].lines == original.lines;
    SameRequest(original, after.journals.entries[r.originalKey], r);
  }

  lemma SameRequest(a: Journal, b: Journal, r: Reversal)
    requires a.lines == b.lines
    ensures ReversalRequest(a, r) == ReversalRequest(b, r)
  {
  }

  /** One reversal of a fresh journal takes no credit line beyond what it was credited. */
  lemma OneReversalFitsEachLine(original: Journal, amount: int, i: nat)
    requires SoundJournal(original) && 0 < amount <= original.total
    requires i < |CreditLines(original.lines)|
    ensures 0 <= GivenBack(original, amount)[i] <= CreditLines(original.lines)[i].credit
    ensures amount == original.total ==> GivenBack(original, amount)[i] == CreditLines(original.lines)[i].credit
  {
    hide Money.Allocate, Money.Exact, Money.SumReal, SumCredit, CreditLines, Known;
    var credits := CreditLines(original.lines);
    var w := CreditWeights(credits);
    CreditSums(original.lines);
    WeightsAdd(credits, w);
    ClampKeeps(w);
    Money.AllocationKeepsSign(amount, w, i);
    Money.AllocationIsWithinOne(amount, w, i);
    ExactAtMost(amount, w, i);
    assert w[i] == credits[i].credit as real;
    PartFits(Money.Allocate(amount, w)[i], Money.Exact(amount, w)[i], credits[i].credit);
  }

  lemma PartFits(part: int, exact: real, credit: int)
    requires -1.0 < part as real - exact < 1.0 && exact <= credit as real
    ensures part <= credit
    ensures exact == credit as real ==> part == credit
  {
  }

  lemma ExactAtMost(m: nat, w: seq<real>, i: nat)
    requires i < |w| && w[i] >= 0.0 && 0.0 < m as real <= Money.SumReal(w)
    ensures Money.Exact(m, w)[i] <= w[i]
    ensures m as real == Money.SumReal(w) ==> Money.Exact(m, w)[i] == w[i]
  {
    hide Money.SumReal, Money.ShareOf;
    ShareAtMost(m as real, w[i], Money.SumReal(w));
  }

  lemma {:induction false} WeightsAdd(credits: seq<Line>, w: seq<real>)
    requires |w| == |credits| && forall i :: 0 <= i < |w| ==> w[i] == credits[i].credit as real
    ensures Money.SumReal(w) == SumCredit(credits) as real
  {
    if w != [] { WeightsAdd(credits[1..], w[1..]); }
  }

  lemma ClampKeeps(w: seq<real>)
    requires forall i :: 0 <= i < |w| ==> w[i] > 0.0
    ensures Money.Weights(w) == w
  {
  }

  lemma ShareAtMost(amount: real, x: real, total: real)
    requires 0.0 < amount <= total && x >= 0.0
    ensures Money.ShareOf(amount, x, total) <= x
    ensures amount == total ==> Money.ShareOf(amount, x, total) == x
  {
    assert amount * x <= total * x;
    assert total * x / total == x;
  }

  // ---------------------------------------------------------------- repeated reversals, line by line

  /** What a list of reversals of one journal takes from its credit line `i`. */
  function TakenFrom(j: Journal, amounts: seq<int>, i: nat): int
    requires i < |CreditLines(j.lines)|
  {
    if amounts == [] then 0 else GivenBack(j, amounts[0])[i] + TakenFrom(j, amounts[1..], i)
  }

  predicate AllPositive(amounts: seq<int>) { forall k :: 0 <= k < |amounts| ==> amounts[k] > 0 }

  /** Whatever is reversed within the total, no credit line gives back more than it was credited. */
  ghost predicate LinesBounded(j: Journal) {
    forall amounts: seq<int>, i: nat ::
      AllPositive(amounts) && Money.Sum(amounts) <= j.total && i < |CreditLines(j.lines)| ==>
        TakenFrom(j, amounts, i) <= CreditLines(j.lines)[i].credit
  }

  /** The largest credit, the first of several. */
  function Largest(credits: seq<Line>): (m: nat)
    requires credits != []
    ensures m < |credits|
    ensures forall k :: 0 <= k < |credits| ==>
              credits[k].credit < credits[m].credit || (credits[k].credit == credits[m].credit && m <= k)
  {
    if |credits| == 1 then 0
    else
      var (p, n) := (credits[..|credits| - 1], |credits| - 1);
      var m := Largest(p);
      assert forall k :: 0 <= k < n ==> credits[k] == p[k];
      if credits[n].credit > p[m].credit then n else m
  }

  /** All of a one-paisa allocation in slot `m`. */
  function OnlyAt(n: nat, m: nat): (r: seq<int>)
    ensures |r| == n
  {
    seq(n, i => if i == m then 1 else 0)
  }

  lemma OnlyAtSum(n: nat, m: nat)
    requires m < n
    ensures Money.Sum(OnlyAt(n, m)) == 1
  {
    var zeros := seq(n, _ => 0);
    Money.SumZeros(zeros);
    Money.SumUpdate(zeros, m, 1);
    assert zeros[m := 1] == OnlyAt(n, m);
  }

  lemma ScaleOrder(p: real, x: real, q: real, y: real, t: real)
    requires t > 0.0 && p * t == x && q * t == y
    ensures x < y ==> p < q
  {
    if p >= q {
      assert (p - q) * t >= 0.0;
    }
  }

  lemma ShareOrder(x: real, y: real, total: real)
    requires total > 0.0
    ensures x < y ==> Money.ShareOf(1.0, x, total) < Money.ShareOf(1.0, y, total)
    ensures 0.0 < x < total ==> 0.0 < Money.ShareOf(1.0, x, total) < 1.0
  {
    hide Money.ShareOf;
    var (p, q) := (Money.ShareOf(1.0, x, total), Money.ShareOf(1.0, y, total));
    ShareBack(x, total);
    ShareBack(y, total);
    ScaleOrder(p, x, q, y, total);
    ScaleOrder(0.0, 0.0, p, x, total);
    ScaleOrder(p, x, 1.0, total, total);
  }

  lemma ShareBack(x: real, total: real)
    requires total > 0.0
    ensures Money.ShareOf(1.0, x, total) * total == x
  {
  }

  lemma {:induction false} OneOfSeveral(credits: seq<Line>, i: nat)
    requires forall k :: 0 <= k < |credits| ==> credits[k].credit > 0
    requires i < |credits|
    ensures SumCredit(credits) >= credits[i].credit
    ensures |credits| >= 2 ==> SumCredit(credits) > credits[i].credit
  {
    if |credits| >= 2 {
      OneOfSeveral(credits[1..], if i > 0 then i - 1 else 0);
    } else {
      assert credits[1..] == [];
    }
  }

  lemma OnlyAtApportioned(w: seq<real>, m: nat)
    requires m < |w| && Money.SumReal(w) > 0.0
    requires forall k :: 0 <= k < |w| ==> 0.0 < w[k] < Money.SumReal(w)
    requires forall k :: 0 <= k < |w| ==> w[k] < w[m] || (w[k] == w[m] && m <= k)
    ensures Money.Apportioned(1, w, OnlyAt(|w|, m))
  {
    hide Money.SumReal, Money.ShareOf, Money.Sum;
    var (e, total) := (Money.Exact(1, w), Money.SumReal(w));
    OnlyAtSum(|w|, m);
    forall k | 0 <= k < |w| ensures 0.0 < e[k] < 1.0 && e[k].Floor == 0 && Money.Precedes(e, m, k) {
      ShareOrder(w[k], w[m], total);
      ShareOrder(w[m], w[k], total);
      UnitFloor(e[k]);
      UnitFloor(e[m]);
    }
  }

  lemma UnitFloor(x: real)
    ensures 0.0 < x < 1.0 ==> x.Floor == 0
  {
  }

  /** With two or more credit lines, a one-paisa reversal always goes to the largest of them. */
  lemma OnePaisaGoesToLargest(j: Journal)
    requires SoundJournal(j) && |CreditLines(j.lines)| >= 2
    ensures var credits := CreditLines(j.lines); GivenBack(j, 1) == OnlyAt(|credits|, Largest(credits))
  {
    var credits := CreditLines(j.lines);
    var (w, m) := (CreditWeights(credits), Largest(credits));
    hide Money.SumReal, Money.Shares, SumCredit, CreditLines, Largest, Known, OnlyAt, Money.Apportioned;
    WeightsAdd(credits, w);
    ClampKeeps(w);
    forall k | 0 <= k < |w| ensures 0.0 < w[k] < Money.SumReal(w) { OneOfSeveral(credits, k); }
    OnlyAtApportioned(w, m);
    Money.SharesApportioned(1, w);
    Money.ApportionmentIsUnique(1, w, Money.Shares(1, w), OnlyAt(|w|, m));
  }

  function Ones(n: nat): seq<int> { if n == 0 then [] else [1] + Ones(n - 1) }

  lemma {:induction false} OnesTake(j: Journal, n: nat, m: nat)
    requires m < |CreditLines(j.lines)| && GivenBack(j, 1)[m] == 1
    ensures Money.Sum(Ones(n)) == n && AllPositive(Ones(n))
    ensures TakenFrom(j, Ones(n), m) == n
  {
    hide GivenBack, CreditLines;
    if n > 0 {
      assert Ones(n)[1..] == Ones(n - 1) && Ones(n)[0] == 1;
      OnesTake(j, n - 1, m);
    }
  }

  /** A journal with one credit line gives everything back from it. */
  lemma {:induction false} SingleLineTakesAll(j: Journal, amounts: seq<int>)
    requires |CreditLines(j.lines)| == 1 && AllPositive(amounts)
    ensures TakenFrom(j, amounts, 0) == Money.Sum(amounts)
    decreases |amounts|
  {
    hide Money.Allocate, CreditLines;
    if amounts != [] {
      var shares := GivenBack(j, amounts[0]);
      Money.AllocationSumsIff(amounts[0], CreditWeights(CreditLines(j.lines)));
      assert shares == [shares[0]] && shares[1..] == [];
      SingleLineTakesAll(j, amounts[1..]);
    }
  }

  /**
   Exactly when repeated reversals respect every line: when the journal credited one line
   only. With more, one-paisa reversals all hit the largest line, past what it was credited.
   */
  lemma LinesBoundedIff(j: Journal)
    requires SoundJournal(j) && j.total >= 1
    ensures LinesBounded(j) <==> |CreditLines(j.lines)| == 1
  {
    hide CreditLines, GivenBack, TakenFrom, Largest, OnlyAt, SumDebit, Known, Money.Sum;
    var credits := CreditLines(j.lines);
    CreditSums(j.lines);
    assert credits != [] by { NoCredit(credits); }
    if |credits| == 1 {
      OneOfSeveral(credits, 0);
      SingleCredit(credits);
      forall amounts: seq<int>, i: nat |
          AllPositive(amounts) && Money.Sum(amounts) <= j.total && i < |credits|
        ensures TakenFrom(j, amounts, i) <= credits[i].credit
      {
        SingleLineTakesAll(j, amounts);
      }
    } else {
      var m := Largest(credits);
      var n := credits[m].credit + 1;
      OnePaisaGoesToLargest(j);
      AtLargest(|credits|, m);
      OneOfSeveral(credits, m);
      OnesTake(j, n, m);
      assert TakenFrom(j, Ones(n), m) > credits[m].credit;
    }
  }

  lemma AtLargest(n: nat, m: nat)
    requires m < n
    ensures OnlyAt(n, m)[m] == 1
  {
  }

  lemma SingleCredit(credits: seq<Line>)
    requires |credits| == 1
    ensures SumCredit(credits) == credits[0].credit
  {
    assert credits[1..] == [];
  }

  /** What a created reversal adds to the entries, and that it leaves the original's lines. */
  lemma ReverseAppends(b: Books, r: Reversal)
    requires Inv(b) && Reverse(b, r).1 == Ok(true)
    ensures var (after, original) := (Reverse(b, r).0, b.journals.entries[r.originalKey]);
            && after.entries == b.entries + NonZero(ReversalLines(original, r.amount, r.counter, r.ref))
            && r.originalKey in after.journals.entries
            && after.journals.entries[r.originalKey] == original.(reversed := original.reversed + r.amount)
            && after.journals.entries.Keys == b.journals.entries.Keys + {r.key}
  {
    hide ReversalLines, NonZero, Check, Inv, FoldLines, JournalOf, MarkReversed, KINDS;
    var req := ReversalRequest(b.journals.entries[r.originalKey], r);
    PostedJournal(b, req);
    MarkTouches(Posted(b, req).journals, r);
  }

  lemma MarkTouches(js: Journals, r: Reversal)
    requires r.key in js.entries && r.originalKey in js.entries && r.key != r.originalKey
    ensures var (marked, original) := (MarkReversed(js, r).entries, js.entries[r.originalKey]);
            && marked.Keys == js.entries.Keys
            && marked[r.originalKey] == original.(reversed := original.reversed + r.amount)
  {
  }

  /** A sale that credits two accounts one paisa each, and what one paisa given back from `x` posts. */
  function SaleLines(d: string, x: string, y: string, ref: string): seq<Line> {
    [Line(d, 2, 0, ref), Line(x, 0, 1, ref), Line(y, 0, 1, ref)]
  }

  function BackLines(x: string, counter: string, ref: string): seq<Line> {
    [Line(x, 1, 0, ref), Line(counter, 0, 1, ref)]
  }

  /**
   The smallest such run: that sale and two reversals of one paisa. All three calls succeed,
   and both reversals debit the first account.
   */
  lemma RepeatedReversalsCanExceedALine(d: string, x: string, y: string, counter: string, ref: string)
    requires Known(d) && Known(x) && Known(y) && Known(counter)
    requires x != d && x != y && x != counter && y != d && y != counter
    ensures var sale := Request("sale_captured", "sale", SaleLines(d, x, y, ref), false);
            var first := Reversal("sale", 1, counter, "refund_issued", "refund-1", ref, false);
            var second := first.(key := "refund-2");
            var b1 := Post(EMPTY_BOOKS, sale);
            var b2 := Reverse(b1.0, first);
            var b3 := Reverse(b2.0, second);
            && b1.1 == b2.1 == b3.1 == Ok(true)
            && TotalsOf(b3.0.entries, x).debit == 2 && TotalsOf(b3.0.entries, x).credit == 1
            && TotalsOf(b3.0.entries, y).debit == 0 && TotalsOf(b3.0.entries, y).credit == 1
  {
    hide Known, Inv, TotalsOf, Reverse, Post, EMPTY_BOOKS, SaleLines, BackLines;
    var sale := Request("sale_captured", "sale", SaleLines(d, x, y, ref), false);
    var first := Reversal("sale", 1, counter, "refund_issued", "refund-1", ref, false);
    var second := first.(key := "refund-2");
    var back := BackLines(x, counter, ref);
    assert "refund-1"[7] != "refund-2"[7] && |"sale"| == 4 && |"refund-1"| == |"refund-2"| == 8;
    SaleIsPosted(d, x, y, ref);
    var b1 := Post(EMPTY_BOOKS, sale).0;
    SaleReversed(b1, first, d, x, y);
    var b2 := Reverse(b1, first).0;
    SaleReversed(b2, second, d, x, y);
    assert Reverse(b2, second).0.entries == (sale.lines + back) + back;
    SaleAndTwoBacks(d, x, y, counter, ref, x);
    SaleAndTwoBacks(d, x, y, counter, ref, y);
  }

  lemma SaleAndTwoBacks(d: string, x: string, y: string, counter: string, ref: string, a: string)
    requires x != d && x != y && x != counter && y != d && y != counter && (a == x || a == y)
    ensures var (sale, back) := (SaleLines(d, x, y, ref), BackLines(x, counter, ref));
            TotalsOf((sale + back) + back, a) == if a == x then Totals(2, 1, 3) else Totals(0, 1, 1)
  {
    hide TotalsOf, SaleLines, BackLines;
    var (sale, back) := (SaleLines(d, x, y, ref), BackLines(x, counter, ref));
    TotalsConcat(sale + back, back, a);
    TotalsConcat(sale, back, a);
    SaleTotals(d, x, y, counter, ref, a);
  }

  function LineOn(l: Line, a: string): Totals { if l.account == a then LineTotals(l) else ZERO }

  lemma TwoLines(l: Line, m: Line, a: string)
    ensures TotalsOf([l, m], a) == Plus(LineOn(l, a), LineOn(m, a))
  {
    hide TotalsOf, Plus, LineTotals;
    assert [l, m] == [l] + [m];
    TotalsConcat([l], [m], a);
    OneLine(l, a);
    OneLine(m, a);
  }

  lemma ThreeLines(l: Line, m: Line, n: Line, a: string)
    ensures TotalsOf([l, m, n], a) == Plus(Plus(LineOn(l, a), LineOn(m, a)), LineOn(n, a))
  {
    hide TotalsOf, Plus, LineTotals;
    assert [l, m, n] == [l, m] + [n];
    TotalsConcat([l, m], [n], a);
    TwoLines(l, m, a);
    OneLine(n, a);
  }

  lemma SaleTotals(d: string, x: string, y: string, counter: string, ref: string, a: string)
    requires x != d && x != y && x != counter && y != d && y != counter && (a == x || a == y)
    ensures TotalsOf(SaleLines(d, x, y, ref), a) == Totals(0, 1, 1)
    ensures TotalsOf(BackLines(x, counter, ref), a) == if a == x then Totals(1, 0, 1) else ZERO
  {
    hide TotalsOf;
    ThreeLines(Line(d, 2, 0, ref), Line(x, 0, 1, ref), Line(y, 0, 1, ref), a);
    TwoLines(Line(x, 1, 0, ref), Line(counter, 0, 1, ref), a);
  }

  lemma KindsListed()
    ensures "sale_captured" in KINDS && "refund_issued" in KINDS
    ensures KindPasses("sale_captured") && KindPasses("refund_issued")
  {
  }

  lemma {:induction false} NonZeroKeeps(lines: seq<Line>)
    requires forall k :: 0 <= k < |lines| ==> lines[k].debit != 0 || lines[k].credit != 0
    ensures NonZero(lines) == lines
  {
    if lines != [] {
      NonZeroKeeps(lines[1..]);
      assert lines == [lines[0]] + lines[1..];
    }
  }

  lemma SaleChecks(d: string, x: string, y: string, ref: string)
    requires Known(d) && Known(x) && Known(y)
    ensures var lines := SaleLines(d, x, y, ref);
            && NonZero(lines) == lines && AllOneSided(lines)
            && SumDebit(lines) == SumCredit(lines) == 2
  {
    hide Known, NonZero;
    NonZeroKeeps(SaleLines(d, x, y, ref));
    var (three, two, one) := (SaleLines(d, x, y, ref), [Line(x, 0, 1, ref), Line(y, 0, 1, ref)], [Line(y, 0, 1, ref)]);
    assert three[1..] == two && two[1..] == one && one[1..] == [];
    assert SumDebit(one) == 0 && SumCredit(one) == 1;
    assert SumDebit(two) == 0 && SumCredit(two) == 2;
  }

  lemma SaleIsPosted(d: string, x: string, y: string, ref: string)
    requires Known(d) && Known(x) && Known(y)
    ensures var lines := SaleLines(d, x, y, ref);
            var (after, r) := Post(EMPTY_BOOKS, Request("sale_captured", "sale", lines, false));
            && r == Ok(true) && Inv(after) && after.entries == lines
            && after.journals.entries == map["sale" := Journal("sale_captured", lines, 2, 0, None)]
  {
    hide Known, NonZero, SumDebit, SumCredit, AllOneSided, FoldLines, FirstError, Inv, KindPasses, KINDS;
    var sale := Request("sale_captured", "sale", SaleLines(d, x, y, ref), false);
    SaleChecks(d, x, y, ref);
    KindsListed();
    PostKeepsInv(EMPTY_BOOKS, sale) by { EmptyInv(); }
    assert [] + sale.lines == sale.lines;
  }

  /** Each further paisa of that sale that is reversed comes back from its first credit. */
  lemma SaleReversed(b: Books, r: Reversal, d: string, x: string, y: string)
    requires Inv(b) && "sale" in b.journals.entries && Known(r.counter)
    requires r == Reversal("sale", 1, r.counter, "refund_issued", r.key, r.ref, false)
    requires r.key != "" && r.key !in b.journals.entries
    requires var j := b.journals.entries["sale"]; j.lines == SaleLines(d, x, y, r.ref) && j.reversed < j.total
    ensures var (after, result) := Reverse(b, r);
            && result == Ok(true) && Inv(after)
            && after.entries == b.entries + BackLines(x, r.counter, r.ref)
            && after.journals.entries.Keys == b.journals.entries.Keys + {r.key}
            && after.journals.entries["sale"]
               == b.journals.entries["sale"].(reversed := b.journals.entries["sale"].reversed + 1)
  {
    hide Known, Inv, Reverse, NonZero, ReversalLines, KINDS, KindPasses, SaleLines, BackLines;
    KindsListed();
    ReversalOutcome(b, r);
    ReverseKeepsInv(b, r);
    ReverseAppends(b, r);
    OnePaisaLines(b.journals.entries["sale"], d, x, y, r.counter, r.ref);
  }

  lemma OnePaisaLines(j: Journal, d: string, x: string, y: string, counter: string, ref: string)
    requires j.lines == SaleLines(d, x, y, ref)
    ensures NonZero(ReversalLines(j, 1, counter, ref)) == BackLines(x, counter, ref)
  {
    hide Money.Allocate, CreditLines, NonZero;
    var credits := [Line(x, 0, 1, ref), Line(y, 0, 1, ref)];
    TwoCredits(Line(d, 2, 0, ref), credits[0], credits[1]);
    assert CreditWeights(credits) == [1.0, 1.0];
    Money.SplitTaxIsEvenAllocation(1);
    assert GivenBack(j, 1) == [1, 0];
    assert credits[1..] == [Line(y, 0, 1, ref)] && credits[1..][1..] == [] && [1, 0][1..] == [0] && [0][1..] == [];
    assert DebitLines(credits[1..], [0]) == [];
    assert DebitLines(credits, [1, 0]) == [Line(x, 1, 0, ref)];
    assert ReversalLines(j, 1, counter, ref) == BackLines(x, counter, ref);
    NonZeroKeeps(BackLines(x, counter, ref));
  }

  lemma TwoCredits(debit: Line, x: Line, y: Line)
    requires debit.credit == 0 && x.credit > 0 && y.credit > 0
    ensures CreditLines([debit, x, y]) == [x, y]
  {
    var (three, two, one) := ([debit, x, y], [x, y], [y]);
    assert three[1..] == two && two[1..] == one && one[1..] == [];
    assert CreditLines(one) == one;
    assert CreditLines(two) == two;
  }

  // ---------------------------------------------------------------- verifyBalances

  predicate Drifts(entries: seq<Line>, balances: Balances, a: string) {
    var (stored, computed) := (TotalsAt(balances, a), TotalsOf(entries, a));
    stored.debit != computed.debit || stored.credit != computed.credit
  }

  /** Rewrites the two amounts of one account; the entry count is not touched. */
  function Rewrite(b: Balances, a: string, t: Totals): Balances
    requires Known(a)
  {
    JsMap.Set(b, a, if a in b.entries
                    then Balance(b.entries[a].kind, Totals(t.debit, t.credit, b.entries[a].totals.count))
                    else Balance(TypeOf(a).value, Totals(t.debit, t.credit, 0)))
  }

  /** Rewrites the listed accounts; an account outside the chart stops the repair. */
  function Repair(entries: seq<Line>, b: Balances, accounts: seq<string>): (Balances, bool)
    decreases |accounts|
  {
    if accounts == [] then (b, true)
    else if !Known(accounts[0]) then (b, false)
    else Repair(entries, Rewrite(b, accounts[0], TotalsOf(entries, accounts[0])), accounts[1..])
  }

  lemma RewriteEffect(entries: seq<Line>, b: Balances, k: string)
    requires Known(k)
    ensures var after := Rewrite(b, k, TotalsOf(entries, k));
            && !Drifts(entries, after, k)
            && (forall a :: a != k ==> TotalsAt(after, a) == TotalsAt(b, a))
            && (forall a :: a in after.entries ==> TotalsAt(after, a).count == TotalsAt(b, a).count)
  {
  }

  /** After repairing every drifted account the view shows the amounts of the entries. */
  lemma {:induction false} RepairRestores(entries: seq<Line>, b: Balances, accounts: seq<string>, a: string)
    requires forall i :: 0 <= i < |accounts| ==> Known(accounts[i])
    ensures Repair(entries, b, accounts).1
    ensures a in accounts || !Drifts(entries, b, a) ==> !Drifts(entries, Repair(entries, b, accounts).0, a)
    decreases |accounts|
  {
    hide Known, Drifts, TotalsAt, Rewrite;
    if accounts != [] {
      assert accounts == [accounts[0]] + accounts[1..];
      RewriteEffect(entries, b, accounts[0]);
      if a != accounts[0] { RewriteOthers(entries, b, accounts[0], a); }
      RepairRestores(entries, Rewrite(b, accounts[0], TotalsOf(entries, accounts[0])), accounts[1..], a);
    }
  }

  /** A repair leaves the types and entry counts of the accounts there are. */
  lemma {:induction false} RepairKeepsRest(entries: seq<Line>, b: Balances, accounts: seq<string>, a: string)
    requires a in b.entries
    ensures var after := Repair(entries, b, accounts).0;
            && a in after.entries && after.entries[a].kind == b.entries[a].kind
            && after.entries[a].totals.count == b.entries[a].totals.count
    decreases |accounts|
  {
    hide Known, TotalsOf;
    if accounts != [] && Known(accounts[0]) {
      RepairKeepsRest(entries, Rewrite(b, accounts[0], TotalsOf(entries, accounts[0])), accounts[1..], a);
    }
  }

  lemma RewriteOthers(entries: seq<Line>, b: Balances, k: string, a: string)
    requires Known(k) && a != k
    ensures Drifts(entries, Rewrite(b, k, TotalsOf(entries, k)), a) == Drifts(entries, b, a)
  {
    RewriteEffect(entries, b, k);
  }

  /** In step means nothing drifts: every reachable set of books passes the check. */
  lemma InStepNeverDrifts(ops: seq<Op>, a: string)
    ensures var b := Run(EMPTY_BOOKS, ops); !Drifts(b.entries, b.balances, a)
  {
    hide Run, TotalsOf, TotalsAt;
    BooksAlwaysBalance(ops);
    var b := Run(EMPTY_BOOKS, ops);
    assert TotalsAt(b.balances, a) == TotalsOf(b.entries, a);
  }

  // ---------------------------------------------------------------- the service

  class LedgerService {
    var journals: Journals
    var entries: seq<Line>
    var balances: Balances

    constructor ()
      ensures View() == EMPTY_BOOKS
    {
      journals := JsMap.Empty();
      entries := [];
      balances := JsMap.Empty();
    }

    function View(): Books reads this { Books(journals, entries, balances) }

    /** Groups the lines by account, then adds once per account. */
    method ApplyToBalances(lines: seq<Line>)
      requires AllKnown(lines)
      modifies this`balances
      ensures balances == FoldLines(old(balances), lines)
    {
      hide FoldLines, Inc, Known, TypeOf, Group, IncAll;
      var byAccount: Groups := JsMap.Empty();
      NoLines("");
      for i := 0 to |lines|
        invariant byAccount == Group(lines[..i])
        invariant balances == old(balances)
      {
        var l := lines[i];
        var cur := if l.account in byAccount.entries then byAccount.entries[l.account] else ZERO;
        cur := Totals(cur.debit + l.debit, cur.credit + l.credit, cur.count + 1);
        byAccount := JsMap.Set(byAccount, l.account, cur);
        assert lines[..i + 1] == lines[..i] + [l];
        GroupSnoc(lines[..i], l);
        ghost var g := Group(lines[..i]);
        assert cur == Plus(if l.account in g.entries then g.entries[l.account] else ZERO, LineTotals(l));
      }
      assert lines[..|lines|] == lines;
      GroupedIsLineByLine(balances, lines);
      var accounts := byAccount.order;
      assert accounts[0..] == accounts;
      for i := 0 to |accounts|
        invariant IncAll(balances, accounts[i..], byAccount.entries) == FoldLines(old(balances), lines)
      {
        IncAllStep(balances, accounts, i, byAccount.entries);
        balances := Inc(balances, accounts[i], byAccount.entries[accounts[i]]);
      }
      IncAllDone(balances, accounts[|accounts|..], byAccount.entries);
    }

    /** `post`, committed as one transaction. */
    method PostJournal(req: Request) returns (r: Result<bool, Error>)
      modifies this
      ensures (View(), r) == Post(old(View()), req)
    {
      hide SumDebit, SumCredit, FoldLines, NonZero, FirstError;
      if !KindPasses(req.kind) { return Err(BadKind); }
      if req.key == "" { return Err(KeyRequired); }
      var normalized := NonZero(req.lines);
      if normalized == [] { return Err(Empty); }
      var bad := Validate(normalized);
      if bad.Some? { return Err(bad.value); }
      var (debits, credits) := (SumDebit(normalized), SumCredit(normalized));
      if debits != credits { return Err(Unbalanced); }
      if req.key in journals.entries { return Ok(false); }
      if req.closed { return Err(PeriodClosed); }
      if req.kind !in KINDS { return Err(SchemaKind); }
      journals := JsMap.Set(journals, req.key, Journal(req.kind, normalized, debits, 0, None));
      entries := entries + normalized;
      OneSidedIsKnown(normalized);
      ApplyToBalances(normalized);
      return Ok(true);
    }

    /** The validation loop: the first bad line decides the error. */
    method Validate(lines: seq<Line>) returns (e: Option<Error>)
      ensures e == FirstError(lines)
    {
      hide Known;
      for i := 0 to |lines|
        invariant FirstError(lines) == FirstError(lines[i..])
      {
        var l := lines[i];
        assert lines[i..][0] == l && lines[i..][1..] == lines[i + 1..];
        if l.debit < 0 || l.credit < 0 { return Some(NegativeAmount); }
        if l.debit > 0 && l.credit > 0 { return Some(BothSides); }
        if !Known(l.account) { return Some(UnknownAccount); }
      }
      return None;
    }

    method ReverseProportional(rev: Reversal) returns (r: Result<bool, Error>)
      modifies this
      ensures (View(), r) == Reverse(old(View()), rev)
    {
      hide Post, ReversalLines;
      if rev.amount <= 0 { return Err(InvalidAmount); }
      if rev.originalKey !in journals.entries { return Err(OriginalNotFound); }
      var original := journals.entries[rev.originalKey];
      var remaining := original.total - original.reversed;
      if rev.amount > remaining { return Err(OverReversal); }
      PostedKeeps(View(), ReversalRequest(original, rev));
      r := PostJournal(ReversalRequest(original, rev));
      if r == Ok(true) {
        journals := JsMap.Set(journals, rev.key, journals.entries[rev.key].(reversalOf := Some(rev.originalKey)));
        var now := journals.entries[rev.originalKey];
        journals := JsMap.Set(journals, rev.originalKey, now.(reversed := now.reversed + rev.amount));
      }
    }

    /**
     The aggregation over all entries. Sound books always pass; and as long as the view is in
     step, the difference is exactly what separates the two sides of the natural balances.
     */
    method TrialBalance() returns (difference: int, balanced: bool)
      ensures balanced <==> difference == 0
      ensures difference == SumDebit(entries) - SumCredit(entries)
      ensures Inv(View()) ==> balanced
      ensures Covered(entries, balances) && InStep(entries, balances) ==>
                && (forall a :: a in balances.order ==> a in balances.entries)
                && difference == NaturalSum(balances.order, balances.entries, true)
                                 - NaturalSum(balances.order, balances.entries, false)
    {
      var (debit, credit) := (0, 0);
      for i := 0 to |entries|
        invariant debit == SumDebit(entries[..i]) && credit == SumCredit(entries[..i])
      {
        SumsSnoc(entries, i);
        debit, credit := debit + entries[i].debit, credit + entries[i].credit;
      }
      assert entries[..|entries|] == entries;
      difference := debit - credit;
      balanced := debit == credit;
      if Covered(entries, balances) && InStep(entries, balances) { SidesDiffer(entries, balances); }
    }

    /**
     Lists exactly the drifted accounts and, when asked, rewrites them. `Err` is an account
     outside the chart met while repairing.
     */
    method VerifyBalances(repair: bool) returns (drifted: seq<string>, repaired: Result<nat, Error>)
      modifies this`balances
      ensures Sorting.NoDup(drifted)
      ensures forall a :: a in drifted <==> Drifts(entries, old(balances), a)
      ensures !repair ==> balances == old(balances) && repaired == Ok(0)
      ensures repair ==> (balances, repaired.Ok?) == Repair(entries, old(balances), drifted)
      ensures repair && repaired.Ok? ==> repaired.value == |drifted|
    {
      drifted := ListDrifted();
      if !repair { return drifted, Ok(0); }
      hide Known, Rewrite, TotalsOf, Drifts;
      var i := 0;
      while i < |drifted|
        invariant 0 <= i <= |drifted|
        invariant Repair(entries, balances, drifted[i..]) == Repair(entries, old(balances), drifted)
      {
        var a := drifted[i];
        assert drifted[i..][0] == a && drifted[i..][1..] == drifted[i + 1..];
        if !Known(a) { return drifted, Err(UnknownAccount); }
        balances := Rewrite(balances, a, TotalsOf(entries, a));
        i := i + 1;
      }
      repaired := Ok(|drifted|);
    }

    /** Compares the groups of the entries with the view, then looks at what the view has besides. */
    method ListDrifted() returns (drifted: seq<string>)
      ensures Sorting.NoDup(drifted)
      ensures forall a :: a in drifted <==> Drifts(entries, balances, a)
    {
      hide Group, Drifts, JsMap.Without, TotalsOf, Known;
      var computed := Group(entries);
      var stored := balances;
      drifted := [];
      for i := 0 to |computed.order|
        invariant Sorting.NoDup(drifted)
        invariant forall a :: a in drifted <==> a in computed.order[..i] && Drifts(entries, balances, a)
        invariant stored.entries == balances.entries - (set a | a in computed.order[..i])
      {
        var a := computed.order[i];
        NextIsNew(computed.order, i);
        DriftOfGroup(entries, balances, a);
        var s := if a in stored.entries then stored.entries[a].totals else ZERO;
        if s.debit != computed.entries[a].debit || s.credit != computed.entries[a].credit {
          drifted := drifted + [a];
        }
        stored := JsMap.Delete(stored, a);
      }
      assert computed.order[..|computed.order|] == computed.order;
      for i := 0 to |stored.order|
        invariant Sorting.NoDup(drifted)
        invariant forall a :: a in drifted <==>
                    Drifts(entries, balances, a) && (a in computed.order || a in stored.order[..i])
      {
        var a := stored.order[i];
        NextIsNew(stored.order, i);
        DriftOfRest(entries, balances, a);
        if stored.entries[a].totals.debit != 0 || stored.entries[a].totals.credit != 0 { drifted := drifted + [a]; }
      }
      assert stored.order[..|stored.order|] == stored.order;
      forall a | Drifts(entries, balances, a) ensures a in computed.order || a in stored.order {
        DriftOfRest(entries, balances, a);
      }
    }
  }

  lemma NextIsNew(order: seq<string>, i: nat)
    requires i < |order| && Sorting.NoDup(order)
    ensures order[..i + 1] == order[..i] + [order[i]] && order[i] !in order[..i] && order[i] in order
  {
  }

  lemma DriftOfGroup(entries: seq<Line>, balances: Balances, a: string)
    requires a in Group(entries).entries
    ensures var (stored, computed) := (TotalsAt(balances, a), Group(entries).entries[a]);
            Drifts(entries, balances, a) <==> stored.debit != computed.debit || stored.credit != computed.credit
  {
    hide Group, TotalsOf;
    GroupTotals(entries, a);
  }

  lemma DriftOfRest(entries: seq<Line>, balances: Balances, a: string)
    requires a !in Group(entries).entries || Drifts(entries, balances, a)
    ensures Drifts(entries, balances, a) && a !in Group(entries).entries ==> a in balances.entries
    ensures a !in Group(entries).entries && a in balances.entries ==>
              (Drifts(entries, balances, a)
               <==> balances.entries[a].totals.debit != 0 || balances.entries[a].totals.credit != 0)
  {
    hide Group, TotalsOf;
    GroupTotals(entries, a);
  }

  lemma IncAllDone(b: Balances, accounts: seq<string>, t: map<string, Totals>)
    requires |accounts| == 0
    ensures Listed(accounts, t) && IncAll(b, accounts, t) == b
  {
  }

  lemma IncAllStep(b: Balances, accounts: seq<string>, i: nat, t: map<string, Totals>)
    requires i < |accounts| && Listed(accounts, t)
    ensures IncAll(b, accounts[i..], t) == IncAll(Inc(b, accounts[i], t[accounts[i]]), accounts[i + 1..], t)
  {
    assert accounts[i..][0] == accounts[i] && accounts[i..][1..] == accounts[i + 1..];
  }

  lemma PostedKeeps(b: Books, req: Request)
    ensures Post(b, req).1 == Ok(true) ==> req.key in Post(b, req).0.journals.entries
    ensures forall k :: k in b.journals.entries && k != req.key ==>
              k in Post(b, req).0.journals.entries && Post(b, req).0.journals.entries[k] == b.journals.entries[k]
  {
    hide Check;
  }
}
