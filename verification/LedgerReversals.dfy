/**
 What a proportional reversal (backend/src/services/ledger.service.js:374-455) posts to each
 account, said about the entries themselves.
 */
module LedgerReversals {
  import opened Wrappers
  import opened LedgerBalances
  import opened Ledger
  import Money

  /** The shares of the credit lines of account `a`. */
  function SharesTo(credits: seq<Line>, shares: seq<int>, a: string): int
    requires |credits| == |shares|
  {
    if credits == [] then 0
    else (if credits[0].account == a then shares[0] else 0) + SharesTo(credits[1..], shares[1..], a)
  }

  lemma TotalsCons(l: Line, rest: seq<Line>, a: string)
    ensures TotalsOf([l] + rest, a) == Plus(LineOn(l, a), TotalsOf(rest, a))
  {
    hide TotalsOf, Plus, LineTotals;
    TotalsConcat([l], rest, a);
    OneLine(l, a);
  }

  lemma {:induction false} NonZeroTotals(lines: seq<Line>, a: string)
    ensures TotalsOf(NonZero(lines), a).debit == TotalsOf(lines, a).debit
    ensures TotalsOf(NonZero(lines), a).credit == TotalsOf(lines, a).credit
  {
    if lines != [] {
      var (l, rest) := (lines[0], lines[1..]);
      assert lines == [l] + rest;
      assert NonZero(lines) == if l.debit != 0 || l.credit != 0 then [l] + NonZero(rest) else NonZero(rest);
      hide TotalsOf, NonZero;
      NonZeroTotals(rest, a);
      TotalsCons(l, rest, a);
      TotalsCons(l, NonZero(rest), a);
    }
  }

  lemma {:induction false} DebitLinesTotals(credits: seq<Line>, shares: seq<int>, a: string)
    requires |credits| == |shares| && forall i :: 0 <= i < |shares| ==> shares[i] >= 0
    ensures TotalsOf(DebitLines(credits, shares), a).debit == SharesTo(credits, shares, a)
    ensures TotalsOf(DebitLines(credits, shares), a).credit == 0
  {
    if credits != [] {
      var l := credits[0].(debit := shares[0], credit := 0);
      var rest := DebitLines(credits[1..], shares[1..]);
      assert DebitLines(credits, shares) == if shares[0] > 0 then [l] + rest else rest;
      assert SharesTo(credits, shares, a)
             == (if l.account == a then shares[0] else 0) + SharesTo(credits[1..], shares[1..], a);
      hide TotalsOf, DebitLines, SharesTo;
      DebitLinesTotals(credits[1..], shares[1..], a);
      TotalsCons(l, rest, a);
    }
  }

  lemma SharesNonNegative(j: Journal, amount: int)
    requires amount > 0
    ensures forall i :: 0 <= i < |GivenBack(j, amount)| ==> GivenBack(j, amount)[i] >= 0
  {
    var w := CreditWeights(CreditLines(j.lines));
    forall i | 0 <= i < |GivenBack(j, amount)| ensures GivenBack(j, amount)[i] >= 0 {
      Money.AllocationKeepsSign(amount, w, i);
    }
  }

  /** A created reversal debits each account the shares of its credit lines and credits the counter account. */
  lemma ReversalDebits(b: Books, r: Reversal, a: string)
    requires Inv(b) && Reverse(b, r).1 == Ok(true)
    ensures r.originalKey in b.journals.entries && r.amount > 0
    ensures var original := b.journals.entries[r.originalKey];
            var (before, after) := (TotalsOf(b.entries, a), TotalsOf(Reverse(b, r).0.entries, a));
            && after.debit == before.debit
                              + SharesTo(CreditLines(original.lines), GivenBack(original, r.amount), a)
            && after.credit == before.credit + if a == r.counter then r.amount else 0
  {
    hide Inv, Check, Post, TotalsOf, NonZero, DebitLines, CreditLines, GivenBack, SharesTo;
    var original := b.journals.entries[r.originalKey];
    var debits := DebitLines(CreditLines(original.lines), GivenBack(original, r.amount));
    var last := Line(r.counter, 0, r.amount, r.ref);
    ReverseAppends(b, r);
    SharesNonNegative(original, r.amount);
    TotalsConcat(b.entries, NonZero(debits + [last]), a);
    NonZeroTotals(debits + [last], a);
    TotalsConcat(debits, [last], a);
    DebitLinesTotals(CreditLines(original.lines), GivenBack(original, r.amount), a);
    OneLine(last, a);
  }

  lemma {:induction false} CreditTotals(lines: seq<Line>, a: string)
    requires AllOneSided(lines)
    ensures TotalsOf(CreditLines(lines), a).credit == TotalsOf(lines, a).credit
  {
    hide Known;
    if lines != [] {
      var (l, rest) := (lines[0], lines[1..]);
      assert OneSided(l) && lines == [l] + rest;
      assert CreditLines(lines) == if l.credit > 0 then [l] + CreditLines(rest) else CreditLines(rest);
      hide TotalsOf, CreditLines;
      CreditTotals(rest, a);
      TotalsCons(l, rest, a);
      TotalsCons(l, CreditLines(rest), a);
    }
  }

  lemma {:induction false} FullShares(credits: seq<Line>, shares: seq<int>, a: string)
    requires |credits| == |shares| && forall i :: 0 <= i < |shares| ==> shares[i] == credits[i].credit
    ensures SharesTo(credits, shares, a) == TotalsOf(credits, a).credit
  {
    if credits != [] { FullShares(credits[1..], shares[1..], a); }
  }

  /** A full reversal debits every account exactly what the journal credited it. */
  lemma FullReversalMirrors(b: Books, r: Reversal, a: string)
    requires Inv(b) && Reverse(b, r).1 == Ok(true)
    requires r.amount == b.journals.entries[r.originalKey].total
    ensures TotalsOf(Reverse(b, r).0.entries, a).debit
            == TotalsOf(b.entries, a).debit + TotalsOf(b.journals.entries[r.originalKey].lines, a).credit
  {
    var original := b.journals.entries[r.originalKey];
    ReversalDebits(b, r, a);
    assert SoundJournal(original) by { JournalSound(b, r.originalKey); }
    hide Inv, Reverse, TotalsOf, CreditLines, GivenBack, SharesTo;
    var (credits, shares) := (CreditLines(original.lines), GivenBack(original, r.amount));
    forall i | 0 <= i < |credits| ensures shares[i] == credits[i].credit {
      OneReversalFitsEachLine(original, r.amount, i);
    }
    FullShares(credits, shares, a);
    CreditTotals(original.lines, a);
  }

  lemma JournalSound(b: Books, key: string)
    requires Inv(b) && key in b.journals.entries
    ensures SoundJournal(b.journals.entries[key])
  {
    hide SoundJournal, Flatten;
  }

  /** `debited : credited` is `amount : total` up to one paisa for each of `lines` lines. */
  predicate InProportion(debited: int, credited: int, amount: int, total: int, lines: int) {
    -lines * total <= debited * total - amount * credited <= lines * total
  }

  /**
   Every account is debited in proportion to what the journal credited it, up to less than one
   paisa for each of its credit lines.
   */
  lemma ReversalIsProportional(b: Books, r: Reversal, a: string)
    requires Inv(b) && Reverse(b, r).1 == Ok(true)
    ensures var original := b.journals.entries[r.originalKey];
            var debited := TotalsOf(Reverse(b, r).0.entries, a).debit - TotalsOf(b.entries, a).debit;
            var credited := TotalsOf(original.lines, a).credit;
            var lines := TotalsOf(CreditLines(original.lines), a).count;
            && InProportion(debited, credited, r.amount, original.total, lines)
            && (lines == 0 ==> debited == 0)
  {
    hide Inv, Reverse, TotalsOf, CreditLines, GivenBack, SharesTo, InProportion;
    ReversalDebits(b, r, a);
    JournalSound(b, r.originalKey);
    ReversalPositive(b, r);
    PartsProportional(b.journals.entries[r.originalKey], r.amount, a);
  }

  lemma PartsProportional(j: Journal, amount: int, a: string)
    requires SoundJournal(j) && 0 < amount <= j.total
    ensures var (credits, shares) := (CreditLines(j.lines), GivenBack(j, amount));
            var lines := TotalsOf(credits, a).count;
            && InProportion(SharesTo(credits, shares, a), TotalsOf(j.lines, a).credit, amount, j.total, lines)
            && (lines == 0 ==> SharesTo(credits, shares, a) == 0)
  {
    hide TotalsOf, CreditLines, GivenBack, SharesTo, InProportion;
    var (credits, shares) := (CreditLines(j.lines), GivenBack(j, amount));
    forall i | 0 <= i < |credits| ensures InProportion(shares[i], credits[i].credit, amount, j.total, 1) {
      ShareIsProportional(j, amount, i);
    }
    SharesProportional(credits, shares, amount, j.total, a);
    CreditTotals(j.lines, a);
  }

  lemma ReversalPositive(b: Books, r: Reversal)
    requires Reverse(b, r).1 == Ok(true)
    ensures 0 < r.amount <= b.journals.entries[r.originalKey].total - b.journals.entries[r.originalKey].reversed
  {
    hide Post;
  }

  lemma ShareIsProportional(j: Journal, amount: int, i: nat)
    requires SoundJournal(j) && 0 < amount <= j.total && i < |CreditLines(j.lines)|
    ensures var credit := CreditLines(j.lines)[i].credit;
            InProportion(GivenBack(j, amount)[i], credit, amount, j.total, 1)
  {
    hide Money.Allocate, Money.Exact, Money.SumReal, SumCredit, CreditLines, Known;
    var credits := CreditLines(j.lines);
    var w := CreditWeights(credits);
    CreditSums(j.lines);
    WeightsAdd(credits, w);
    ClampKeeps(w);
    Money.AllocationIsWithinOne(amount, w, i);
    ExactShare(amount, w, i);
    WithinOnePaisa(Money.Allocate(amount, w)[i], amount, credits[i].credit, j.total, Money.Exact(amount, w)[i]);
  }

  lemma ExactShare(m: nat, w: seq<real>, i: nat)
    requires i < |w| && Money.SumReal(w) > 0.0
    ensures Money.Exact(m, w)[i] * Money.SumReal(w) == m as real * w[i]
  {
    hide Money.SumReal;
  }

  lemma WithinOnePaisa(part: int, amount: int, credit: int, total: int, exact: real)
    requires total > 0 && -1.0 < part as real - exact < 1.0
    requires exact * total as real == amount as real * credit as real
    ensures InProportion(part, credit, amount, total, 1)
  {
    hide InProportion;
    RealProduct(part, total);
    RealProduct(amount, credit);
    RealGap(part as real, exact, total as real, (amount * credit) as real);
    RoundBack(part * total, amount * credit, total);
    Proportional(part, credit, amount, total);
  }

  lemma Proportional(part: int, credit: int, amount: int, total: int)
    ensures -total <= part * total - amount * credit <= total ==> InProportion(part, credit, amount, total, 1)
  {
  }

  lemma RealProduct(x: int, y: int)
    ensures (x * y) as real == x as real * y as real
  {
  }

  lemma RoundBack(x: int, y: int, total: int)
    requires -(total as real) <= x as real - y as real <= total as real
    ensures -total <= x - y <= total
  {
  }

  lemma Scaled(x: real, t: real)
    requires -1.0 < x < 1.0 && t > 0.0
    ensures -t <= x * t <= t
  {
    assert (x + 1.0) * t >= 0.0 && (1.0 - x) * t >= 0.0;
  }

  lemma Distributes(x: real, p: real, e: real, t: real, q: real)
    requires x == p - e && e * t == q
    ensures x * t == p * t - q
  {
    assert (p - e) * t == p * t - e * t;
  }

  lemma RealGap(p: real, e: real, t: real, q: real)
    requires -1.0 < p - e < 1.0 && t > 0.0 && e * t == q
    ensures -t <= p * t - q <= t
  {
    var x := p - e;
    Scaled(x, t);
    Distributes(x, p, e, t, q);
    Linear(x * t, p * t, q, t);
  }

  lemma Linear(xt: real, pt: real, q: real, t: real)
    requires -t <= xt <= t && xt == pt - q
    ensures -t <= pt - q <= t
  {
  }

  lemma {:induction false} SharesProportional(credits: seq<Line>, shares: seq<int>, amount: int, total: int, a: string)
    requires |credits| == |shares|
    requires forall i :: 0 <= i < |credits| ==>
               InProportion(shares[i], credits[i].credit, amount, total, 1)
    ensures var t := TotalsOf(credits, a);
            && InProportion(SharesTo(credits, shares, a), t.credit, amount, total, t.count)
            && (t.count == 0 ==> SharesTo(credits, shares, a) == 0) && t.count >= 0
  {
    if credits != [] {
      var (t, u) := (TotalsOf(credits, a), TotalsOf(credits[1..], a));
      var (s, z) := (SharesTo(credits, shares, a), SharesTo(credits[1..], shares[1..], a));
      hide InProportion;
      SharesProportional(credits[1..], shares[1..], amount, total, a);
      if credits[0].account == a {
        AddOne(shares[0], credits[0].credit, z, u.credit, u.count, amount, total);
      }
    }
  }

  lemma AddOne(share: int, credit: int, z: int, c: int, n: int, amount: int, total: int)
    requires InProportion(share, credit, amount, total, 1) && InProportion(z, c, amount, total, n)
    ensures InProportion(share + z, credit + c, amount, total, n + 1)
  {
    assert (share + z) * total == share * total + z * total;
    assert amount * (credit + c) == amount * credit + amount * c;
    assert (n + 1) * total == n * total + total;
  }

  /** The new entries name the accounts and references of the credit lines, then the counter account. */
  lemma ReversalNamesLines(b: Books, r: Reversal)
    requires Inv(b) && Reverse(b, r).1 == Ok(true)
    ensures var (before, after) := (b.entries, Reverse(b, r).0.entries);
            && |before| < |after| && before <= after && after[|after| - 1] == Line(r.counter, 0, r.amount, r.ref)
            && forall k :: |before| <= k < |after| - 1 ==>
                 after[k].credit == 0 && Gives(b.journals.entries[r.originalKey].lines, after[k])
  {
    hide Inv, Reverse, Check, Post, NonZero, DebitLines, GivenBack, Gives, SumDebit, SumCredit;
    ReversalDebits(b, r, "");
    var original := b.journals.entries[r.originalKey];
    var debits := DebitLines(CreditLines(original.lines), GivenBack(original, r.amount));
    var last := Line(r.counter, 0, r.amount, r.ref);
    ReverseAppends(b, r);
    ReversalPositive(b, r);
    DebitLinesName(CreditLines(original.lines), GivenBack(original, r.amount));
    NonZeroKeeps(debits + [last]);
    assert Reverse(b, r).0.entries == (b.entries + debits) + [last];
    forall k | 0 <= k < |debits| ensures Gives(original.lines, debits[k]) && debits[k].credit == 0 {
      GivesMore(CreditLines(original.lines), original.lines, debits[k]);
    }
  }

  /** The line takes back from one that credited the same account under the same reference. */
  ghost predicate Gives(lines: seq<Line>, l: Line) {
    exists i :: 0 <= i < |lines| && lines[i].credit > 0 && lines[i].account == l.account && lines[i].ref == l.ref
  }

  lemma GivesMore(credits: seq<Line>, lines: seq<Line>, l: Line)
    requires Gives(credits, l) && forall i :: 0 <= i < |credits| ==> credits[i] in lines
    ensures Gives(lines, l)
  {
  }

  lemma {:induction false} DebitLinesName(credits: seq<Line>, shares: seq<int>)
    requires |credits| == |shares| && forall i :: 0 <= i < |credits| ==> credits[i].credit > 0
    ensures forall k :: 0 <= k < |DebitLines(credits, shares)| ==>
              var l := DebitLines(credits, shares)[k];
              l.debit > 0 && l.credit == 0 && Gives(credits, l)
  {
    if credits != [] {
      var rest := DebitLines(credits[1..], shares[1..]);
      DebitLinesName(credits[1..], shares[1..]);
      forall k | 0 <= k < |rest| ensures Gives(credits, rest[k]) {
        var i :| 0 <= i < |credits[1..]| && credits[1..][i].account == rest[k].account
                 && credits[1..][i].ref == rest[k].ref;
        assert credits[i + 1] == credits[1..][i];
      }
      assert credits[0].credit > 0;
    }
  }

  /** The journal of a created reversal: its kind, its amount, the entries it added, and whom it reverses. */
  lemma ReversalJournal(b: Books, r: Reversal)
    requires Inv(b) && Reverse(b, r).1 == Ok(true)
    ensures var after := Reverse(b, r).0;
            && r.key !in b.journals.entries && r.key in after.journals.entries
            && var j := after.journals.entries[r.key];
            && j.kind == r.kind && j.total == r.amount && j.reversed == 0 && j.reversalOf == Some(r.originalKey)
            && after.entries == b.entries + j.lines
            && after.journals.order == b.journals.order + [r.key]
  {
    hide ReversalLines, Inv, Check, FoldLines, NonZero, SumDebit, SumCredit;
    var req := ReversalRequest(b.journals.entries[r.originalKey], r);
    PostedIs(b, req);
    ReversalSums(b, r);
    MarkIs(Post(b, req).0.journals, r);
  }

  lemma ReversalSums(b: Books, r: Reversal)
    requires Inv(b) && Reverse(b, r).1 == Ok(true)
    ensures SumDebit(ReversalRequest(b.journals.entries[r.originalKey], r).lines) == r.amount
  {
    JournalSound(b, r.originalKey);
    ReversalPositive(b, r);
    hide Inv, Reverse, ReversalLines, Check, SoundJournal;
    ReversalBalances(b.journals.entries[r.originalKey], r);
  }

  lemma MarkIs(js: Journals, r: Reversal)
    requires r.key in js.entries && r.originalKey in js.entries && r.key != r.originalKey
    ensures var marked := MarkReversed(js, r);
            && marked.order == js.order && r.key in marked.entries
            && marked.entries[r.key] == js.entries[r.key].(reversalOf := Some(r.originalKey))
  {
  }
}
