/**
 Accounts, lines and balances of the ledger (backend/src/services/ledger.service.js,
 backend/src/models/accountBalance.model.js): how the lines of a journal are folded
 into one running total per account. Amounts are integer paise.
 */
module LedgerBalances {
  import opened Wrappers
  import opened JsStrings
  import JsMap
  import Sorting

  // ---------------------------------------------------------------- accounts

  /** `Inherited`: what the lookup table inherits under a name like `constructor`, none of the four types. */
  datatype AccountType = Asset | Liability | Income | Expense | Inherited

  const TYPE_BY_PREFIX: map<string, AccountType> := map[
    "gateway_clearing" := Asset, "bank" := Asset, "cod_receivable" := Asset, "cash_on_hand" := Asset,
    "refund_clawback" := Asset,
    "platform_commission_income" := Income, "platform_subscription_income" := Income,
    "tcs_payable" := Liability, "tds_payable" := Liability, "customer_wallet_liability" := Liability,
    "vendor_payable" := Liability, "tenant_payable" := Liability, "gst_output_payable" := Liability,
    "wallet_goodwill_expense" := Expense, "rounding_difference" := Expense]

  /** The functions that the table, an object literal, inherits. */
  const INHERITED: set<string> := {
    "constructor", "toString", "toLocaleString", "valueOf", "hasOwnProperty", "isPrototypeOf", "propertyIsEnumerable",
    "__defineGetter__", "__defineSetter__", "__lookupGetter__", "__lookupSetter__"}

  function TypeOf(code: string): Option<AccountType> {
    var prefix := Split(code, ':')[0];
    if prefix in TYPE_BY_PREFIX then Some(TYPE_BY_PREFIX[prefix])
    else if prefix in INHERITED then Some(Inherited)
    else None
  }

  lemma NotInChart(c: string)
    requires |c| == 11 && c[0] != 't'
    ensures c !in TYPE_BY_PREFIX
  {
    forall k | k in TYPE_BY_PREFIX ensures k != c {
      assert |k| != 11 || k[0] == 't';
    }
  }

  /** An inherited name passes for an account, although the chart has none of that name. */
  lemma InheritedNamePasses()
    ensures Known("constructor") && "constructor" !in TYPE_BY_PREFIX
  {
    SplitWhole("constructor", ':');
    NotInChart("constructor");
    assert "constructor" in INHERITED;
    hide TYPE_BY_PREFIX, INHERITED, Split;
  }

  predicate Known(code: string) { TypeOf(code).Some? }

  predicate DebitPositive(t: AccountType) { t.Asset? || t.Expense? }

  // ---------------------------------------------------------------- lines and totals

  /** `ref` stands for the reference and memo fields. */
  datatype Line = Line(account: string, debit: int, credit: int, ref: string)

  datatype Totals = Totals(debit: int, credit: int, count: int)

  const ZERO := Totals(0, 0, 0)

  function Plus(a: Totals, b: Totals): Totals { Totals(a.debit + b.debit, a.credit + b.credit, a.count + b.count) }

  lemma PlusZero(a: Totals)
    ensures Plus(a, ZERO) == a && Plus(ZERO, a) == a
  {
  }

  lemma PlusAssociates(a: Totals, b: Totals, c: Totals)
    ensures Plus(Plus(a, b), c) == Plus(a, Plus(b, c))
  {
  }

  function LineTotals(l: Line): Totals { Totals(l.debit, l.credit, 1) }

  /** What the lines add up to on account `a`. */
  function TotalsOf(lines: seq<Line>, a: string): Totals {
    if lines == [] then ZERO
    else Plus(if lines[0].account == a then LineTotals(lines[0]) else ZERO, TotalsOf(lines[1..], a))
  }

  function SumDebit(lines: seq<Line>): int { if lines == [] then 0 else lines[0].debit + SumDebit(lines[1..]) }

  function SumCredit(lines: seq<Line>): int { if lines == [] then 0 else lines[0].credit + SumCredit(lines[1..]) }

  lemma {:induction false} TotalsConcat(x: seq<Line>, y: seq<Line>, a: string)
    ensures TotalsOf(x + y, a) == Plus(TotalsOf(x, a), TotalsOf(y, a))
  {
    hide Plus, LineTotals;
    if x == [] {
      assert x + y == y;
      PlusZero(TotalsOf(y, a));
    } else {
      var rest := x[1..];
      var first := if x[0].account == a then LineTotals(x[0]) else ZERO;
      assert (x + y)[1..] == rest + y;
      assert TotalsOf(x + y, a) == Plus(first, TotalsOf(rest + y, a));
      assert TotalsOf(x, a) == Plus(first, TotalsOf(rest, a));
      TotalsConcat(rest, y, a);
      hide TotalsOf;
      PlusAssociates(first, TotalsOf(rest, a), TotalsOf(y, a));
    }
  }

  lemma {:induction false} SumsConcat(x: seq<Line>, y: seq<Line>)
    ensures SumDebit(x + y) == SumDebit(x) + SumDebit(y)
    ensures SumCredit(x + y) == SumCredit(x) + SumCredit(y)
  {
    if x == [] {
      assert x + y == y;
    } else {
      assert (x + y)[1..] == x[1..] + y;
      SumsConcat(x[1..], y);
    }
  }

  // ---------------------------------------------------------------- balances

  datatype Balance = Balance(kind: AccountType, totals: Totals)

  type Balances = JsMap.Map<string, Balance>

  /** The `balancePaise` virtual. */
  function BalancePaise(b: Balance): int {
    if DebitPositive(b.kind) then b.totals.debit - b.totals.credit else b.totals.credit - b.totals.debit
  }

  function TotalsAt(b: Balances, a: string): Totals { if a in b.entries then b.entries[a].totals else ZERO }

  /** `$inc` with upsert. */
  function Inc(b: Balances, a: string, t: Totals): Balances
    requires Known(a)
  {
    JsMap.Set(b, a, if a in b.entries then b.entries[a].(totals := Plus(b.entries[a].totals, t))
                    else Balance(TypeOf(a).value, t))
  }

  /** Every line names an account of the chart. */
  predicate AllKnown(lines: seq<Line>) { forall i :: 0 <= i < |lines| ==> Known(lines[i].account) }

  /** The specification: every line is added to its account. */
  function FoldLines(b: Balances, lines: seq<Line>): Balances
    requires AllKnown(lines)
    decreases |lines|
  {
    if lines == [] then b
    else FoldLines(Inc(b, lines[0].account, LineTotals(lines[0])), lines[1..])
  }

  /** Every balance carries the type of its account. */
  ghost predicate Typed(b: Balances) {
    forall a :: a in b.entries ==> Known(a) && b.entries[a].kind == TypeOf(a).value
  }

  lemma IncEffect(b: Balances, k: string, t: Totals)
    requires Known(k)
    ensures forall a :: TotalsAt(Inc(b, k, t), a) == if a == k then Plus(TotalsAt(b, a), t) else TotalsAt(b, a)
    ensures forall a :: a in Inc(b, k, t).entries <==> a == k || a in b.entries
    ensures Typed(b) ==> Typed(Inc(b, k, t))
  {
  }

  lemma {:induction false} FoldLinesTotals(b: Balances, lines: seq<Line>, a: string)
    requires AllKnown(lines)
    ensures TotalsAt(FoldLines(b, lines), a) == Plus(TotalsAt(b, a), TotalsOf(lines, a))
    decreases |lines|
  {
    hide Inc, Known, TotalsAt, Plus, LineTotals;
    if lines == [] {
      PlusZero(TotalsAt(b, a));
    } else {
      var (k, t, rest) := (lines[0].account, LineTotals(lines[0]), TotalsOf(lines[1..], a));
      var b1 := Inc(b, k, t);
      assert FoldLines(b, lines) == FoldLines(b1, lines[1..]);
      FoldLinesTotals(b1, lines[1..], a);
      assert TotalsOf(lines, a) == Plus(if k == a then t else ZERO, rest);
      hide FoldLines, TotalsOf;
      IncEffect(b, k, t);
      if k == a { PlusAssociates(TotalsAt(b, a), t, rest); } else { PlusZero(rest); }
    }
  }

  lemma {:induction false} FoldLinesCovers(b: Balances, lines: seq<Line>)
    requires AllKnown(lines)
    ensures forall a :: a in b.entries ==> a in FoldLines(b, lines).entries
    ensures forall l :: l in lines ==> l.account in FoldLines(b, lines).entries
    ensures Typed(b) ==> Typed(FoldLines(b, lines))
    decreases |lines|
  {
    hide Inc, Known, Typed;
    if lines != [] {
      assert lines == [lines[0]] + lines[1..];
      IncEffect(b, lines[0].account, LineTotals(lines[0]));
      FoldLinesCovers(Inc(b, lines[0].account, LineTotals(lines[0])), lines[1..]);
    }
  }

  // ---------------------------------------------------------------- applyToBalances

  type Groups = JsMap.Map<string, Totals>

  function GroupLine(g: Groups, l: Line): Groups {
    JsMap.Set(g, l.account, Plus(if l.account in g.entries then g.entries[l.account] else ZERO, LineTotals(l)))
  }

  function Group(lines: seq<Line>): (g: Groups)
    ensures AllKnown(lines) ==> forall a :: a in g.entries ==> Known(a)
  {
    if lines == [] then JsMap.Empty()
    else
      var (p, l) := (lines[..|lines| - 1], lines[|lines| - 1]);
      assert lines == p + [l];
      GroupLine(Group(p), l)
  }

  predicate Listed(accounts: seq<string>, t: map<string, Totals>) {
    forall i :: 0 <= i < |accounts| ==> accounts[i] in t && Known(accounts[i])
  }

  /** One `$inc` per listed account. */
  function IncAll(b: Balances, accounts: seq<string>, t: map<string, Totals>): Balances
    requires Listed(accounts, t)
    decreases |accounts|
  {
    if accounts == [] then b
    else IncAll(Inc(b, accounts[0], t[accounts[0]]), accounts[1..], t)
  }

  /** Increments of different accounts commute once the moved one exists. */
  lemma IncCommutes(b: Balances, a: string, x: Totals, k: string, y: Totals)
    requires Known(a) && Known(k) && a != k && a in b.entries
    ensures Inc(Inc(b, a, x), k, y) == Inc(Inc(b, k, y), a, x)
  {
    hide Known, TypeOf, Plus;
    var (l, r) := (Inc(Inc(b, a, x), k, y), Inc(Inc(b, k, y), a, x));
    assert l.order == r.order;
    assert l.entries == r.entries;
  }

  lemma IncTwice(b: Balances, a: string, x: Totals, y: Totals)
    requires Known(a)
    ensures Inc(Inc(b, a, x), a, y) == Inc(b, a, Plus(x, y))
  {
    hide Known, TypeOf, JsMap.Without;
    assert Inc(Inc(b, a, x), a, y).entries == Inc(b, a, Plus(x, y)).entries;
  }

  lemma {:induction false} IncPasses(b: Balances, accounts: seq<string>, t: map<string, Totals>, a: string, x: Totals)
    requires Listed(accounts, t)
    requires Known(a) && a in b.entries && a !in accounts
    ensures IncAll(Inc(b, a, x), accounts, t) == Inc(IncAll(b, accounts, t), a, x)
    decreases |accounts|
  {
    if accounts != [] {
      var k := accounts[0];
      assert k in accounts;
      IncCommutes(b, a, x, k, t[k]);
      IncPasses(Inc(b, k, t[k]), accounts[1..], t, a, x);
    }
  }

  lemma {:induction false} IncAllIgnores(b: Balances, accounts: seq<string>,
                                             t: map<string, Totals>, u: map<string, Totals>)
    requires Listed(accounts, t) && Listed(accounts, u)
    requires forall k :: k in accounts ==> t[k] == u[k]
    ensures IncAll(b, accounts, t) == IncAll(b, accounts, u)
    decreases |accounts|
  {
    if accounts != [] {
      assert accounts[0] in accounts;
      IncAllIgnores(Inc(b, accounts[0], t[accounts[0]]), accounts[1..], t, u);
    }
  }

  /** One line more in the groups is one increment more at the end. */
  lemma {:induction false} IncAllSnoc(b: Balances, accounts: seq<string>, t: map<string, Totals>, a: string, x: Totals)
    requires Sorting.NoDup(accounts)
    requires Listed(accounts, t)
    requires a in accounts
    ensures IncAll(b, accounts, t[a := Plus(t[a], x)]) == Inc(IncAll(b, accounts, t), a, x)
    decreases |accounts|
  {
    hide Inc, Known, TypeOf, Plus;
    var (k, rest, u) := (accounts[0], accounts[1..], t[a := Plus(t[a], x)]);
    assert accounts == [k] + rest;
    assert k in accounts && forall j :: j in rest ==> j in accounts;
    assert k !in rest;
    if k == a {
      IncTwice(b, a, t[a], x);
      IncEffect(b, a, t[a]);
      IncAllIgnores(Inc(b, a, u[a]), rest, u, t);
      IncPasses(Inc(b, a, t[a]), rest, t, a, x);
    } else {
      IncAllSnoc(Inc(b, k, t[k]), rest, t, a, x);
    }
  }

  lemma {:induction false} IncAllAppend(b: Balances, accounts: seq<string>, t: map<string, Totals>, a: string)
    requires Listed(accounts, t) && Known(a) && a in t
    ensures Listed(accounts + [a], t)
    ensures IncAll(b, accounts + [a], t) == Inc(IncAll(b, accounts, t), a, t[a])
    decreases |accounts|
  {
    hide Inc, Known;
    if accounts == [] {
      assert [] + [a] == [a] && [a][1..] == [];
    } else {
      assert (accounts + [a])[1..] == accounts[1..] + [a];
      assert accounts[0] in accounts;
      IncAllAppend(Inc(b, accounts[0], t[accounts[0]]), accounts[1..], t, a);
    }
  }

  lemma {:induction false} FoldSnoc(b: Balances, lines: seq<Line>, l: Line)
    requires AllKnown(lines) && Known(l.account)
    ensures AllKnown(lines + [l])
    ensures FoldLines(b, lines + [l]) == Inc(FoldLines(b, lines), l.account, LineTotals(l))
    decreases |lines|
  {
    hide Inc, Known;
    if lines == [] {
      assert [] + [l] == [l] && [l][1..] == [];
    } else {
      assert (lines + [l])[1..] == lines[1..] + [l];
      FoldSnoc(Inc(b, lines[0].account, LineTotals(lines[0])), lines[1..], l);
    }
  }

  lemma GroupSnoc(p: seq<Line>, l: Line)
    ensures Group(p + [l]) == GroupLine(Group(p), l)
  {
    assert (p + [l])[..|p|] == p;
  }

  lemma GroupStep(b: Balances, g: Groups, l: Line)
    requires Listed(g.order, g.entries) && Known(l.account)
    ensures var h := GroupLine(g, l);
            Listed(h.order, h.entries)
            && IncAll(b, h.order, h.entries) == Inc(IncAll(b, g.order, g.entries), l.account, LineTotals(l))
  {
    hide Inc, IncAll, Plus, LineTotals, Known;
    var h := GroupLine(g, l);
    var (a, t) := (l.account, LineTotals(l));
    if a in g.entries {
      assert h.order == g.order && h.entries == g.entries[a := Plus(g.entries[a], t)];
      IncAllSnoc(b, g.order, g.entries, a, t);
    } else {
      assert h.order == g.order + [a] && h.entries == g.entries[a := Plus(ZERO, t)];
      PlusZero(t);
      IncAllAppend(b, g.order, h.entries, a);
      IncAllIgnores(b, g.order, h.entries, g.entries);
    }
  }

  /** Grouping by account first and adding once per account is adding line by line. */
  lemma {:induction false} GroupedIsLineByLine(b: Balances, lines: seq<Line>)
    requires AllKnown(lines)
    ensures Listed(Group(lines).order, Group(lines).entries)
    ensures IncAll(b, Group(lines).order, Group(lines).entries) == FoldLines(b, lines)
    decreases |lines|
  {
    if lines == [] {
      assert Group(lines).order == [];
    } else {
      var (p, l) := (lines[..|lines| - 1], lines[|lines| - 1]);
      assert lines == p + [l];
      GroupedIsLineByLine(b, p);
      FoldSnoc(b, p, l);
      GroupSnoc(p, l);
      hide Group, GroupLine, FoldLines, IncAll, Inc, LineTotals, Known;
      GroupStep(b, Group(p), l);
    }
  }

  /** The groups hold the totals of exactly the accounts the lines name. */
  lemma {:induction false} GroupTotals(lines: seq<Line>, a: string)
    ensures a in Group(lines).entries ==> Group(lines).entries[a] == TotalsOf(lines, a)
    ensures a !in Group(lines).entries ==> TotalsOf(lines, a) == ZERO
    decreases |lines|
  {
    hide Group, TotalsOf, Plus, LineTotals;
    if lines == [] {
      NoLines(a);
    } else {
      var (p, l) := (lines[..|lines| - 1], lines[|lines| - 1]);
      assert lines == p + [l];
      GroupTotals(p, a);
      GroupSnoc(p, l);
      TotalsConcat(p, [l], a);
      OneLine(l, a);
      PlusZero(TotalsOf(p, a));
      PlusZero(TotalsOf([l], a));
    }
  }

  lemma NoLines(a: string)
    ensures Group([]) == JsMap.Empty() && TotalsOf([], a) == ZERO
  {
  }

  lemma OneLine(l: Line, a: string)
    ensures TotalsOf([l], a) == if l.account == a then LineTotals(l) else ZERO
  {
    assert [l][1..] == [];
    PlusZero(LineTotals(l));
  }

  // ---------------------------------------------------------------- natural balances

  /** Assets and expenses grow by debits, everything else by credits. */
  lemma NaturalSides(t: Totals)
    ensures BalancePaise(Balance(Asset, t)) == BalancePaise(Balance(Expense, t)) == t.debit - t.credit
    ensures BalancePaise(Balance(Liability, t)) == BalancePaise(Balance(Income, t)) == t.credit - t.debit
    ensures BalancePaise(Balance(Inherited, t)) == t.credit - t.debit
    ensures forall b: Balance :: DebitPositive(b.kind) <==> b.kind == Asset || b.kind == Expense
  {
  }

  /** Debits minus credits over the listed accounts. */
  function NetSum(accounts: seq<string>, lines: seq<Line>): int {
    if accounts == [] then 0
    else TotalsOf(lines, accounts[0]).debit - TotalsOf(lines, accounts[0]).credit + NetSum(accounts[1..], lines)
  }

  lemma {:induction false} NetSumCons(accounts: seq<string>, l: Line, rest: seq<Line>)
    requires Sorting.NoDup(accounts)
    ensures NetSum(accounts, [l] + rest)
            == NetSum(accounts, rest) + if l.account in accounts then l.debit - l.credit else 0
    decreases |accounts|
  {
    assert ([l] + rest)[1..] == rest;
    if accounts != [] {
      assert accounts == [accounts[0]] + accounts[1..];
      assert accounts[0] !in accounts[1..];
      NetSumCons(accounts[1..], l, rest);
    }
  }

  lemma {:induction false} NetSumNone(accounts: seq<string>)
    ensures NetSum(accounts, []) == 0
  {
    if accounts != [] { NetSumNone(accounts[1..]); }
  }

  /** Over accounts that cover the lines, the nets add up to the difference of the sides. */
  lemma {:induction false} NetSumIsDifference(accounts: seq<string>, lines: seq<Line>)
    requires Sorting.NoDup(accounts)
    requires forall i :: 0 <= i < |lines| ==> lines[i].account in accounts
    ensures NetSum(accounts, lines) == SumDebit(lines) - SumCredit(lines)
    decreases |lines|
  {
    if lines == [] {
      NetSumNone(accounts);
    } else {
      assert lines == [lines[0]] + lines[1..];
      NetSumCons(accounts, lines[0], lines[1..]);
      NetSumIsDifference(accounts, lines[1..]);
    }
  }

  /** Natural balances of the debit-positive accounts, or of the others. */
  function NaturalSum(accounts: seq<string>, b: map<string, Balance>, debitSide: bool): int
    requires forall a :: a in accounts ==> a in b
  {
    if accounts == [] then 0
    else
      assert accounts[0] in accounts;
      (if DebitPositive(b[accounts[0]].kind) == debitSide then BalancePaise(b[accounts[0]]) else 0)
      + NaturalSum(accounts[1..], b, debitSide)
  }

  lemma {:induction false} NaturalSumsDiffer(accounts: seq<string>, b: map<string, Balance>, lines: seq<Line>)
    requires forall a :: a in accounts ==> a in b
    requires forall a :: a in accounts ==>
               b[a].totals.debit == TotalsOf(lines, a).debit && b[a].totals.credit == TotalsOf(lines, a).credit
    ensures NaturalSum(accounts, b, true) - NaturalSum(accounts, b, false) == NetSum(accounts, lines)
    decreases |accounts|
  {
    if accounts != [] {
      assert accounts[0] in accounts;
      NaturalSumsDiffer(accounts[1..], b, lines);
    }
  }
}
