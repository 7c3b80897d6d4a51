/**
 Exact paise arithmetic (backend/src/utils/money.js): largest-remainder allocation
 and the tax split. Shares are real numbers; rounding of JavaScript doubles is left out.
 */
module Money {
  import Sorting

  // ---------------------------------------------------------------- sums

  function Sum(s: seq<int>): int { if s == [] then 0 else s[0] + Sum(s[1..]) }

  function SumReal(s: seq<real>): real { if s == [] then 0.0 else s[0] + SumReal(s[1..]) }

  lemma {:induction false} SumUpdate(s: seq<int>, i: nat, x: int)
    requires i < |s|
    ensures Sum(s[i := x]) == Sum(s) - s[i] + x
  {
    if i == 0 {
      assert s[0 := x][1..] == s[1..];
    } else {
      assert s[i := x][1..] == s[1..][i - 1 := x];
      SumUpdate(s[1..], i - 1, x);
    }
  }

  lemma {:induction false} SumNegated(s: seq<int>, t: seq<int>)
    requires |s| == |t| && forall i :: 0 <= i < |s| ==> t[i] == -s[i]
    ensures Sum(t) == -Sum(s)
  {
    if s != [] { SumNegated(s[1..], t[1..]); }
  }

  lemma {:induction false} SumZeros(s: seq<int>)
    requires forall i :: 0 <= i < |s| ==> s[i] == 0
    ensures Sum(s) == 0
  {
    if s != [] { SumZeros(s[1..]); }
  }

  // ---------------------------------------------------------------- shares

  /** `Number(x) || 0`, negatives clamped. */
  function Weight(x: real): real { if x > 0.0 then x else 0.0 }

  function Weights(xs: seq<real>): (w: seq<real>)
    ensures |w| == |xs| && forall i :: 0 <= i < |w| ==> w[i] == Weight(xs[i])
  {
    seq(|xs|, i requires 0 <= i < |xs| => Weight(xs[i]))
  }

  function ShareOf(amount: real, x: real, total: real): real
    requires total != 0.0
  {
    amount * x / total
  }

  function Exact(m: nat, w: seq<real>): (e: seq<real>)
    requires SumReal(w) > 0.0
    ensures |e| == |w|
  {
    seq(|w|, i requires 0 <= i < |w| => ShareOf(m as real, w[i], SumReal(w)))
  }

  function Floors(e: seq<real>): (f: seq<int>)
    ensures |f| == |e| && forall i :: 0 <= i < |f| ==> f[i] as real <= e[i] < f[i] as real + 1.0
  {
    seq(|e|, i requires 0 <= i < |e| => e[i].Floor)
  }

  /** The fractional part; below every real remainder outside the list. */
  function Remainder(e: seq<real>, i: nat): real {
    if i < |e| then e[i] - e[i].Floor as real else -1.0
  }

  /** The larger remainder first, the lower index on a tie. */
  predicate Precedes(e: seq<real>, i: nat, j: nat) {
    Remainder(e, i) > Remainder(e, j) || (Remainder(e, i) == Remainder(e, j) && i <= j)
  }

  function Indices(n: nat): seq<nat> { seq(n, i requires 0 <= i < n => i) }

  function Order(e: seq<real>): seq<nat> {
    Sorting.Sort(Indices(|e|), (i, j) => Precedes(e, i, j))
  }

  lemma OrderIsRanking(e: seq<real>)
    ensures |Order(e)| == |e| && Sorting.NoDup(Order(e))
    ensures forall i: nat :: i in Order(e) <==> i < |e|
    ensures forall a, b :: 0 <= a < b < |e| ==> Precedes(e, Order(e)[a], Order(e)[b])
  {
    var le := (i: nat, j: nat) => Precedes(e, i, j);
    Sorting.SortSorted(Indices(|e|), le);
    Sorting.SortMembers(Indices(|e|), le);
    Sorting.NoDupByMultiset(Indices(|e|), Order(e));
    forall i: nat ensures i in Indices(|e|) <==> i < |e| {
      if i < |e| { assert Indices(|e|)[i] == i; }
    }
    assert forall a, b :: 0 <= a < b < |e| ==> le(Order(e)[a], Order(e)[b]);
  }

  /** One more for every index in `up`. */
  function Bumped(f: seq<int>, up: seq<nat>): (r: seq<int>)
    ensures |r| == |f|
  {
    seq(|f|, i requires 0 <= i < |f| => if i in up then f[i] + 1 else f[i])
  }

  lemma BumpOne(f: seq<int>, up: seq<nat>, x: nat)
    requires x < |f| && x !in up
    ensures Bumped(f, up + [x]) == Bumped(f, up)[x := f[x] + 1]
  {
  }

  lemma {:induction false} SumBumped(f: seq<int>, up: seq<nat>)
    requires Sorting.NoDup(up) && forall i :: 0 <= i < |up| ==> up[i] < |f|
    ensures Sum(Bumped(f, up)) == Sum(f) + |up|
    decreases |up|
  {
    if up == [] {
      assert Bumped(f, up) == f;
    } else {
      var (p, x) := (up[..|up| - 1], up[|up| - 1]);
      assert up == p + [x];
      assert x !in p;
      SumBumped(f, p);
      BumpOne(f, p, x);
      SumUpdate(Bumped(f, p), x, f[x] + 1);
    }
  }

  lemma {:induction false} ScaledSum(w: seq<real>, c: real, e: seq<real>)
    requires |e| == |w| && forall i :: 0 <= i < |w| ==> e[i] == c * w[i]
    ensures SumReal(e) == c * SumReal(w)
  {
    if w != [] { ScaledSum(w[1..], c, e[1..]); }
  }

  lemma ExactSum(m: nat, w: seq<real>)
    requires SumReal(w) > 0.0
    ensures SumReal(Exact(m, w)) == m as real
  {
    var c := m as real / SumReal(w);
    forall i | 0 <= i < |w| ensures Exact(m, w)[i] == c * w[i] {
      Reassociate(m as real, w[i], SumReal(w));
    }
    ScaledSum(w, c, Exact(m, w));
  }

  lemma Reassociate(a: real, b: real, d: real)
    requires d != 0.0
    ensures a * b / d == a / d * b
  {
  }

  lemma {:induction false} FloorsSum(e: seq<real>, f: seq<int>)
    requires |f| == |e| && forall i :: 0 <= i < |f| ==> f[i] as real <= e[i] < f[i] as real + 1.0
    ensures Sum(f) as real <= SumReal(e) <= Sum(f) as real + |f| as real
    ensures e != [] ==> SumReal(e) < Sum(f) as real + |f| as real
  {
    if e != [] { FloorsSum(e[1..], f[1..]); }
  }

  /** What is left over after rounding down is less than one paisa per share. */
  lemma LeftoverFits(m: nat, w: seq<real>)
    requires SumReal(w) > 0.0
    ensures 0 <= m - Sum(Floors(Exact(m, w))) < |w|
  {
    ExactSum(m, w);
    FloorsSum(Exact(m, w), Floors(Exact(m, w)));
  }

  // ---------------------------------------------------------------- allocation

  function Leftover(m: nat, w: seq<real>): (k: nat)
    requires SumReal(w) > 0.0
    ensures k < |w|
  {
    LeftoverFits(m, w);
    m - Sum(Floors(Exact(m, w)))
  }

  function Shares(m: nat, w: seq<real>): (r: seq<int>)
    requires SumReal(w) > 0.0
    ensures |r| == |w|
  {
    OrderIsRanking(Exact(m, w));
    Bumped(Floors(Exact(m, w)), Order(Exact(m, w))[..Leftover(m, w)])
  }

  function Negated(s: seq<int>): (r: seq<int>)
    ensures |r| == |s|
  {
    seq(|s|, i requires 0 <= i < |s| => -s[i])
  }

  function Allocate(total: int, xs: seq<real>): (r: seq<int>)
    ensures |r| == |xs|
  {
    var w := Weights(xs);
    if total == 0 then seq(|w|, _ => 0)
    else if SumReal(w) <= 0.0 then seq(|w|, i => if i == 0 then total else 0)
    else if total > 0 then Shares(total, w)
    else Negated(Shares(-total, w))
  }

  method AllocatePaise(total: int, xs: seq<real>) returns (r: seq<int>)
    ensures r == Allocate(total, xs)
  {
    hide Sum, SumReal, Exact, Order, Bumped, Floors;
    var w := Weights(xs);
    if |w| == 0 { return []; }
    if total == 0 { return seq(|w|, _ => 0); }
    var magnitude: nat := if total < 0 then -total else total;
    if SumReal(w) <= 0.0 { return seq(|w|, i => if i == 0 then total else 0); }
    var exact := Exact(magnitude, w);
    var parts := RoundedDown(exact);
    var remainder := magnitude - Sum(parts[..]);
    assert remainder == Leftover(magnitude, w);
    var order := Order(exact);
    OrderIsRanking(exact);
    ghost var floors := Floors(exact);
    BumpNone(floors, order);
    for k := 0 to remainder
      invariant parts[..] == Bumped(floors, order[..k])
    {
      assert k % |order| == k by { SmallModulo(k, |order|); }
      ghost var before := parts[..];
      assert order[k] in order;
      parts[order[k % |order|]] := parts[order[k % |order|]] + 1;
      assert parts[..] == before[order[k] := before[order[k]] + 1];
      BumpNext(floors, order, k);
    }
    assert parts[..] == Shares(magnitude, w);
    r := parts[..];
    if total < 0 { r := Negated(r); }
  }

  method RoundedDown(exact: seq<real>) returns (parts: array<int>)
    ensures fresh(parts) && parts[..] == Floors(exact)
  {
    parts := new int[|exact|](i requires 0 <= i < |exact| => exact[i].Floor);
  }

  lemma SmallModulo(k: nat, n: nat)
    requires k < n
    ensures k % n == k
  {
  }

  lemma BumpNone(f: seq<int>, order: seq<nat>)
    ensures Bumped(f, order[..0]) == f
  {
  }

  lemma BumpNext(f: seq<int>, order: seq<nat>, k: nat)
    requires k < |order| && Sorting.NoDup(order) && order[k] < |f|
    ensures var b := Bumped(f, order[..k]);
            Bumped(f, order[..k + 1]) == b[order[k] := b[order[k]] + 1]
  {
    assert order[..k + 1] == order[..k] + [order[k]];
    assert order[k] !in order[..k];
    BumpOne(f, order[..k], order[k]);
  }

  // ---------------------------------------------------------------- what an allocation promises

  /** Rounded up or down from the exact share, summing to the whole, larger remainders served first. */
  ghost predicate Apportioned(m: nat, w: seq<real>, r: seq<int>)
    requires SumReal(w) > 0.0
  {
    var e := Exact(m, w);
    && |r| == |w| && Sum(r) == m
    && (forall i :: 0 <= i < |w| ==> r[i] == e[i].Floor || r[i] == e[i].Floor + 1)
    && (forall i, j :: 0 <= i < |w| && 0 <= j < |w| && r[i] > e[i].Floor && r[j] == e[j].Floor ==> Precedes(e, i, j))
  }

  lemma SharesApportioned(m: nat, w: seq<real>)
    requires SumReal(w) > 0.0
    ensures Apportioned(m, w, Shares(m, w))
  {
    var e := Exact(m, w);
    var (f, k, order) := (Floors(e), Leftover(m, w), Order(e));
    OrderIsRanking(e);
    var up := order[..k];
    forall i | 0 <= i < |up| ensures up[i] < |f| { assert up[i] in order; }
    SumBumped(f, up);
    forall i, j | 0 <= i < |w| && 0 <= j < |w| && i in up && j !in up ensures Precedes(e, i, j) {
      var a :| 0 <= a < k && order[a] == i;
      assert j in order;
      var b :| 0 <= b < |order| && order[b] == j;
      assert forall c :: 0 <= c < k ==> up[c] == order[c];
      assert b >= k;
    }
  }

  /** No other list has those properties: they determine the allocation. */
  lemma ApportionmentIsUnique(m: nat, w: seq<real>, r: seq<int>, s: seq<int>)
    requires SumReal(w) > 0.0
    requires Apportioned(m, w, r) && Apportioned(m, w, s)
    ensures r == s
  {
    if exists i :: 0 <= i < |w| && r[i] > s[i] {
      var i :| 0 <= i < |w| && r[i] > s[i];
      forall j | 0 <= j < |w| ensures s[j] <= r[j] {
        var e := Exact(m, w);
        assert i == j || !Precedes(e, i, j) || !Precedes(e, j, i);
      }
      SumStrict(s, r, i);
    } else if exists i :: 0 <= i < |w| && r[i] < s[i] {
      var i :| 0 <= i < |w| && r[i] < s[i];
      SumStrict(r, s, i);
    }
  }

  lemma {:induction false} SumStrict(a: seq<int>, b: seq<int>, i: nat)
    requires |a| == |b| && forall j :: 0 <= j < |a| ==> a[j] <= b[j]
    ensures Sum(a) <= Sum(b)
    ensures i < |a| && a[i] < b[i] ==> Sum(a) < Sum(b)
  {
    if a != [] { SumStrict(a[1..], b[1..], if i > 0 then i - 1 else |a|); }
  }

  /** A share that is a whole number of paise is never rounded up. */
  lemma WholeSharesKept(m: nat, w: seq<real>, i: nat)
    requires SumReal(w) > 0.0 && i < |w|
    requires Exact(m, w)[i] == Exact(m, w)[i].Floor as real
    ensures Shares(m, w)[i] == Exact(m, w)[i].Floor
  {
    SharesApportioned(m, w);
    var (e, r) := (Exact(m, w), Shares(m, w));
    ExactSum(m, w);
    if r[i] > e[i].Floor {
      forall j | 0 <= j < |w| ensures e[j] <= r[j] as real {
        assert r[j] == e[j].Floor ==> Precedes(e, i, j);
      }
      RoundedUpTooFar(e, r, i);
    }
  }

  lemma RoundedUpTooFar(e: seq<real>, r: seq<int>, i: nat)
    requires |e| == |r| && i < |e| && e[i] < r[i] as real
    requires forall j :: 0 <= j < |e| ==> e[j] <= r[j] as real
    ensures SumReal(e) < Sum(r) as real
  {
    SumRealStrict(e, r, i);
  }

  lemma {:induction false} SumRealStrict(a: seq<real>, b: seq<int>, i: nat)
    requires |a| == |b| && forall j :: 0 <= j < |a| ==> a[j] <= b[j] as real
    ensures SumReal(a) <= Sum(b) as real
    ensures i < |a| && a[i] < b[i] as real ==> SumReal(a) < Sum(b) as real
  {
    if a != [] { SumRealStrict(a[1..], b[1..], if i > 0 then i - 1 else |a|); }
  }

  lemma {:induction false} WeightsSum(w: seq<real>)
    requires forall i :: 0 <= i < |w| ==> w[i] >= 0.0
    ensures SumReal(w) >= 0.0
    ensures forall i :: 0 <= i < |w| && w[i] > 0.0 ==> SumReal(w) > 0.0
  {
    if w != [] {
      WeightsSum(w[1..]);
      assert forall i :: 0 < i < |w| ==> w[i] == w[1..][i - 1];
    }
  }

  lemma {:induction false} OnlyFirst(total: int, n: nat)
    requires n > 0
    ensures Sum(seq(n, i => if i == 0 then total else 0)) == total
  {
    var s := seq(n, i => if i == 0 then total else 0);
    SumZeros(s[1..]);
  }

  /** Nothing is invented or lost, exactly unless there is no slot to put the money in. */
  lemma AllocationSumsIff(total: int, xs: seq<real>)
    ensures Sum(Allocate(total, xs)) == total <==> xs != [] || total == 0
  {
    var w := Weights(xs);
    var r := Allocate(total, xs);
    if total == 0 {
      SumZeros(r);
    } else if xs == [] {
    } else if SumReal(w) <= 0.0 {
      OnlyFirst(total, |xs|);
    } else if total > 0 {
      SharesApportioned(total, w);
    } else {
      SharesApportioned(-total, w);
      SumNegated(Shares(-total, w), r);
    }
  }

  /** No part has the opposite sign of the total. */
  lemma AllocationKeepsSign(total: int, xs: seq<real>, i: nat)
    requires i < |xs|
    ensures total >= 0 ==> Allocate(total, xs)[i] >= 0
    ensures total <= 0 ==> Allocate(total, xs)[i] <= 0
  {
    var w := Weights(xs);
    if total != 0 && SumReal(w) > 0.0 {
      var m := if total > 0 then total else -total;
      SharesApportioned(m, w);
      NonNegativeShare(m, w, i);
    }
  }

  lemma NonNegativeShare(m: nat, w: seq<real>, i: nat)
    requires SumReal(w) > 0.0 && i < |w| && w[i] >= 0.0
    ensures Exact(m, w)[i] >= 0.0
  {
    ProductNonNegative(m as real, w[i]);
    QuotientNonNegative(m as real * w[i], SumReal(w));
  }

  lemma ProductNonNegative(a: real, b: real)
    requires a >= 0.0 && b >= 0.0
    ensures a * b >= 0.0
  {
  }

  lemma QuotientNonNegative(a: real, d: real)
    requires a >= 0.0 && d > 0.0
    ensures a / d >= 0.0
  {
  }

  /** The largest-remainder quota: every part is within one paisa of its exact share. */
  lemma AllocationIsWithinOne(total: int, xs: seq<real>, i: nat)
    requires i < |xs| && SumReal(Weights(xs)) > 0.0
    ensures var exact := Exact(if total < 0 then -total else total, Weights(xs))[i];
            var part := Allocate(total, xs)[i];
            -1.0 < (if total < 0 then -part else part) as real - exact < 1.0
  {
    hide SumReal, Sum, Shares, Precedes;
    var w := Weights(xs);
    var m := if total < 0 then -total else total;
    SharesApportioned(m, w);
    if m == 0 {
      ZeroShare(0.0, w[i], SumReal(w));
    } else if Shares(m, w)[i] > Exact(m, w)[i].Floor && Exact(m, w)[i] == Exact(m, w)[i].Floor as real {
      WholeSharesKept(m, w, i);
    }
  }

  lemma ZeroShare(a: real, b: real, d: real)
    requires d > 0.0 && (a == 0.0 || b == 0.0)
    ensures a * b / d == 0.0
  {
    assert a * b == 0.0;
  }

  /** A weight of zero or less gets nothing, exactly unless it is the first and no weight is positive. */
  lemma ZeroWeightGetsNothingIff(total: int, xs: seq<real>, i: nat)
    requires i < |xs| && xs[i] <= 0.0
    ensures Allocate(total, xs)[i] == 0
            <==> total == 0 || i > 0 || exists j :: 0 <= j < |xs| && xs[j] > 0.0
  {
    hide Shares, Exact, SumReal;
    var w := Weights(xs);
    WeightsSum(w);
    if total != 0 {
      if SumReal(w) > 0.0 {
        SomePositive(xs);
        ZeroShareKept(if total > 0 then total else -total, w, i);
      } else {
        assert forall j :: 0 <= j < |xs| ==> w[j] == Weight(xs[j]);
      }
    }
  }

  lemma ZeroShareKept(m: nat, w: seq<real>, i: nat)
    requires SumReal(w) > 0.0 && i < |w| && w[i] == 0.0
    ensures Shares(m, w)[i] == 0
  {
    hide Shares, SumReal;
    ZeroShare(m as real, w[i], SumReal(w));
    WholeSharesKept(m, w, i);
  }

  lemma {:induction false} SomePositive(xs: seq<real>)
    requires SumReal(Weights(xs)) > 0.0
    ensures exists j :: 0 <= j < |xs| && xs[j] > 0.0
  {
    if xs != [] && xs[0] <= 0.0 {
      assert Weights(xs)[1..] == Weights(xs[1..]);
      SomePositive(xs[1..]);
      var j :| 0 <= j < |xs[1..]| && xs[1..][j] > 0.0;
      assert xs[j + 1] > 0.0;
    }
  }

  // ---------------------------------------------------------------- tax split

  /** `Math.trunc(t / 2)`. */
  function HalfTowardZero(t: int): int { if t >= 0 then t / 2 else -(-t / 2) }

  /** The CGST and SGST parts. */
  function SplitTax(t: int): (int, int) { (HalfTowardZero(t), t - HalfTowardZero(t)) }

  /**
   The two halves add up, and the split is the even allocation with its two slots swapped:
   the odd paisa goes to SGST where an allocation would give it to the first slot.
   */
  lemma SplitTaxIsEvenAllocation(t: int)
    ensures SplitTax(t).0 + SplitTax(t).1 == t
    ensures Allocate(t, [1.0, 1.0]) == [SplitTax(t).1, SplitTax(t).0]
  {
    hide Shares, Exact, SumReal, Sum, Precedes;
    var w := [1.0, 1.0];
    assert Weights(w) == w;
    EvenWeights();
    if t != 0 {
      var m := if t > 0 then t else -t;
      EvenApportioned(m);
      SharesApportioned(m, w);
      ApportionmentIsUnique(m, w, [m - m / 2, m / 2], Shares(m, w));
    }
  }

  lemma EvenWeights()
    ensures SumReal([1.0, 1.0]) == 2.0
  {
    var w := [1.0, 1.0];
    assert w[1..] == [1.0] && w[1..][1..] == [];
  }

  lemma EvenApportioned(m: nat)
    requires SumReal([1.0, 1.0]) == 2.0
    ensures Apportioned(m, [1.0, 1.0], [m - m / 2, m / 2])
  {
    hide SumReal;
    var (w, r) := ([1.0, 1.0], [m - m / 2, m / 2]);
    assert r[1..] == [m / 2] && r[1..][1..] == [];
    assert Sum(r[1..]) == m / 2;
    assert Sum(r) == m;
    hide Sum;
    assert Exact(m, w) == [m as real / 2.0, m as real / 2.0];
    HalfFloor(m);
  }

  lemma HalfFloor(m: nat)
    ensures (m as real / 2.0).Floor == m / 2
  {
    assert m as real == 2.0 * (m / 2) as real + (m % 2) as real;
  }
}
