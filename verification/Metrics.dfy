/**
 Counters, gauges and histograms (backend/src/observability/metrics.js).
 Each metric keeps one Map from a canonical label key to its value and another
 from the same key to the labels object last used with it.
 */
module Metrics {
  import opened Wrappers
  import opened JsStrings
  import Sorting
  import JsMap

  // ---------------------------------------------------------------- numbers

  /** A JavaScript number, without rounding: any real, or one of the three non-finite values. */
  datatype Num = Finite(v: real) | NaN | PosInf | NegInf

  function Neg(a: Num): Num {
    match a
    case Finite(v) => Finite(-v)
    case NaN => NaN
    case PosInf => NegInf
    case NegInf => PosInf
  }

  function Add(a: Num, b: Num): Num {
    match (a, b)
    case (Finite(x), Finite(y)) => Finite(x + y)
    case (NaN, _) => NaN
    case (_, NaN) => NaN
    case (PosInf, NegInf) => NaN
    case (NegInf, PosInf) => NaN
    case (Finite(_), y) => y
    case (x, _) => x
  }

  /** `x || 0`: a missing entry, zero and NaN all count as 0. */
  function OrZero(x: Option<Num>): Num {
    match x
    case None => Finite(0.0)
    case Some(NaN) => Finite(0.0)
    case Some(n) => n
  }

  // ---------------------------------------------------------------- labels

  /** A labels object; iteration order is insertion order. */
  type Labels = JsMap.Map<string, string>

  /** The first argument of `inc`, `set` and `observe`. */
  datatype LabelArg = NoLabels | Number(n: Num) | Object(labels: Labels)

  /** A number passed where labels were expected has no label properties. */
  function AsLabels(arg: LabelArg): Labels {
    match arg
    case Object(labels) => labels
    case _ => JsMap.Empty()
  }

  function Unpack(labelNames: seq<string>, arg: LabelArg, value: Option<Num>): (Labels, Option<Num>) {
    if labelNames == [] && arg.Number? && value.None? then (JsMap.Empty(), Some(arg.n))
    else (AsLabels(arg), value)
  }

  function LabelValue(labels: Labels, n: string): string {
    if n in labels.entries then labels.entries[n] else ""
  }

  /** The properties `seriesKey` builds: one per distinct declared name. */
  function Distinct(names: seq<string>): (r: seq<string>)
    ensures forall n :: n in r <==> n in names
    ensures Sorting.NoDup(r)
  {
    if names == [] then []
    else
      var rest := Distinct(names[1..]);
      assert names == [names[0]] + names[1..];
      if names[0] in rest then rest else [names[0]] + rest
  }

  function KeyNames(labelNames: seq<string>): seq<string> { SortStrings(Distinct(labelNames)) }

  function KeyParts(names: seq<string>, labels: Labels): seq<string> {
    if names == [] then []
    else [names[0] + "=" + LabelValue(labels, names[0])] + KeyParts(names[1..], labels)
  }

  function SeriesKey(labelNames: seq<string>, labels: Labels): string {
    KeyText(KeyNames(labelNames), labels)
  }

  /** Two assignments name the same series. */
  ghost predicate Same(labelNames: seq<string>, a: Labels, b: Labels) {
    forall n :: n in labelNames ==> LabelValue(a, n) == LabelValue(b, n)
  }

  /** No declared label has a value with the key separator in it. */
  ghost predicate PipeFree(labelNames: seq<string>, labels: Labels) {
    forall n :: n in labelNames ==> '|' !in LabelValue(labels, n)
  }

  lemma KeyNamesMembers(labelNames: seq<string>)
    ensures forall n :: n in KeyNames(labelNames) <==> n in labelNames
  {
    Sorting.SortMembers(Distinct(labelNames), LexLe);
  }

  function KeyText(names: seq<string>, labels: Labels): string { Join(KeyParts(names, labels), "|") }

  lemma KeyTextCons(names: seq<string>, labels: Labels)
    requires |names| >= 2
    ensures KeyText(names, labels)
            == names[0] + "=" + (LabelValue(labels, names[0]) + ['|'] + KeyText(names[1..], labels))
  {
    var parts := KeyParts(names, labels);
    assert parts[1..] == KeyParts(names[1..], labels);
    assert |parts| >= 2;
  }

  lemma KeyTextOne(n: string, labels: Labels)
    ensures KeyText([n], labels) == n + "=" + LabelValue(labels, n)
  {
    assert [n][1..] == [];
    assert KeyParts([n], labels) == [n + "=" + LabelValue(labels, n)];
  }

  lemma {:induction false} KeyPartsDetermine(names: seq<string>, a: Labels, b: Labels)
    requires KeyText(names, a) == KeyText(names, b)
    requires forall n :: n in names ==> '|' !in LabelValue(a, n) && '|' !in LabelValue(b, n)
    ensures forall n :: n in names ==> LabelValue(a, n) == LabelValue(b, n)
  {
    if names != [] {
      var n := names[0];
      var (x, y) := (LabelValue(a, n), LabelValue(b, n));
      assert n in names;
      assert names == [n] + names[1..];
      if |names| == 1 {
        assert names == [n];
        KeyTextOne(n, a);
        KeyTextOne(n, b);
        SamePrefix(n + "=", x, y);
      } else {
        KeyTextCons(names, a);
        KeyTextCons(names, b);
        var (ra, rb) := (KeyText(names[1..], a), KeyText(names[1..], b));
        SamePrefix(n + "=", x + ['|'] + ra, y + ['|'] + rb);
        SplitAtFirst(x, '|', ra, y, rb);
        KeyPartsDetermine(names[1..], a, b);
      }
    }
  }

  lemma SamePrefix(p: string, x: string, y: string)
    requires p + x == p + y
    ensures x == y
  {
    assert (p + x)[|p|..] == x && (p + y)[|p|..] == y;
  }

  /** On values without `|` the key identifies the series exactly. */
  lemma KeyIdentifiesSeries(labelNames: seq<string>, a: Labels, b: Labels)
    requires PipeFree(labelNames, a) && PipeFree(labelNames, b)
    ensures SeriesKey(labelNames, a) == SeriesKey(labelNames, b) <==> Same(labelNames, a, b)
  {
    var names := KeyNames(labelNames);
    KeyNamesMembers(labelNames);
    if SeriesKey(labelNames, a) == SeriesKey(labelNames, b) {
      KeyPartsDetermine(names, a, b);
    }
    if Same(labelNames, a, b) {
      KeyPartsSame(names, a, b);
    }
  }

  /** The label order in the object does not matter: only the values do. */
  lemma KeyIgnoresLabelOrder(labelNames: seq<string>, other: seq<string>, labels: Labels)
    requires forall n :: n in labelNames <==> n in other
    ensures SeriesKey(labelNames, labels) == SeriesKey(other, labels)
  {
    SortStringsCanonical(Distinct(labelNames), Distinct(other));
  }

  /** Two different assignments that share a key: the pipe moves from one value into the next. */
  function Left(n: string, m: string): Labels { JsMap.Set(JsMap.Empty(), n, "|" + m + "=") }

  function Right(n: string, m: string): Labels { JsMap.Set(JsMap.Empty(), m, "|" + m + "=") }

  /**
   Exactly when keys are unambiguous for all values: when at most one label is
   declared. With two, the values' own `|` can imitate the separator.
   */
  lemma KeyUnambiguousIff(labelNames: seq<string>)
    ensures (forall a: Labels, b: Labels ::
               SeriesKey(labelNames, a) == SeriesKey(labelNames, b) ==> Same(labelNames, a, b))
            <==> |Distinct(labelNames)| <= 1
  {
    var names := KeyNames(labelNames);
    KeyNamesMembers(labelNames);
    if |names| <= 1 {
      forall a: Labels, b: Labels | SeriesKey(labelNames, a) == SeriesKey(labelNames, b)
        ensures Same(labelNames, a, b)
      {
        if |names| == 1 {
          assert names == [names[0]];
          KeyTextOne(names[0], a);
          KeyTextOne(names[0], b);
          SamePrefix(names[0] + "=", LabelValue(a, names[0]), LabelValue(b, names[0]));
        }
      }
    } else {
      Sorting.NoDupByMultiset(Distinct(labelNames), names);
      PipesCollide(names);
      var (a, b) := (Left(names[0], names[1]), Right(names[0], names[1]));
      assert names[0] in labelNames && LabelValue(a, names[0]) != LabelValue(b, names[0]);
      assert !Same(labelNames, a, b);
      assert SeriesKey(labelNames, a) == SeriesKey(labelNames, b);
    }
  }

  lemma {:induction false} KeyPartsSame(names: seq<string>, a: Labels, b: Labels)
    requires forall n :: n in names ==> LabelValue(a, n) == LabelValue(b, n)
    ensures KeyParts(names, a) == KeyParts(names, b)
  {
    if names != [] {
      assert names[0] in names;
      KeyPartsSame(names[1..], a, b);
    }
  }

  lemma MovePipe(m: string, tail: string)
    ensures ("|" + m + "=") + ['|'] + (m + "=" + tail)
            == [] + ['|'] + (m + "=" + (("|" + m + "=") + tail))
  {
  }

  /** Everything after the first two names' values is written the same for both. */
  lemma KeyTextTwo(names: seq<string>, labels: Labels) returns (tail: string)
    requires |names| >= 2
    ensures tail == if |names| == 2 then [] else ['|'] + KeyText(names[2..], labels)
    ensures KeyText(names, labels)
            == names[0] + "=" + (LabelValue(labels, names[0]) + ['|']
                                 + (names[1] + "=" + (LabelValue(labels, names[1]) + tail)))
  {
    KeyTextCons(names, labels);
    assert names[1..][1..] == names[2..];
    if |names| == 2 {
      tail := [];
      assert names[1..] == [names[1]];
      KeyTextOne(names[1], labels);
    } else {
      tail := ['|'] + KeyText(names[2..], labels);
      KeyTextCons(names[1..], labels);
      assert LabelValue(labels, names[1]) + ['|'] + KeyText(names[2..], labels)
          == LabelValue(labels, names[1]) + tail;
    }
  }

  lemma PipesCollide(names: seq<string>)
    requires |names| >= 2 && Sorting.NoDup(names)
    ensures KeyText(names, Left(names[0], names[1])) == KeyText(names, Right(names[0], names[1]))
  {
    var (n, m) := (names[0], names[1]);
    var t := KeyTextTwo(names, Left(n, m));
    var t' := KeyTextTwo(names, Right(n, m));
    forall x | x in names[2..] ensures LabelValue(Left(n, m), x) == LabelValue(Right(n, m), x) {
      var i :| 0 <= i < |names[2..]| && names[2..][i] == x;
      assert names[i + 2] == x;
    }
    KeyPartsSame(names[2..], Left(n, m), Right(n, m));
    assert t == t';
    MovePipe(m, t);
    assert "" + t == t;
  }

  // ---------------------------------------------------------------- series

  /** The two Maps of a metric. */
  datatype Series<V> = Series(values: JsMap.Map<string, V>, labels: JsMap.Map<string, Labels>)

  function NoSeries<V>(): Series<V> { Series(JsMap.Empty(), JsMap.Empty()) }

  function Write<V>(s: Series<V>, k: string, ls: Labels, v: V): Series<V> {
    Series(JsMap.Set(s.values, k, v), JsMap.Set(s.labels, k, ls))
  }

  function Stored<V>(s: Series<V>, k: string): Option<V> {
    if k in s.values.entries then Some(s.values.entries[k]) else None
  }

  /** One call of `inc`, `set`, `dec` or `observe`: the arguments as passed. */
  datatype Call = Call(arg: LabelArg, value: Option<Num>)

  function OrOne(value: Option<Num>): Num {
    if value.Some? then value.value else Finite(1.0)
  }

  // ---------------------------------------------------------------- counters

  function Accepted(c: Call): Option<real> {
    match OrOne(c.value)
    case Finite(v) => if v < 0.0 then None else Some(v)
    case _ => None
  }

  function Count(x: Option<real>): real { if x.Some? then x.value else 0.0 }

  function CounterInc(labelNames: seq<string>, s: Series<real>, c: Call): Series<real> {
    var (ls, v) := Unpack(labelNames, c.arg, Some(OrOne(c.value)));
    match v.value
    case Finite(x) =>
      if x < 0.0 then s
      else
        var k := SeriesKey(labelNames, ls);
        Write(s, k, ls, Count(Stored(s, k)) + x)
    case _ => s
  }

  function CounterValue(labelNames: seq<string>, s: Series<real>, labels: LabelArg): real {
    Count(Stored(s, SeriesKey(labelNames, AsLabels(labels))))
  }

  function CounterRun(labelNames: seq<string>, s: Series<real>, calls: seq<Call>): Series<real>
    decreases |calls|
  {
    if calls == [] then s else CounterRun(labelNames, CounterInc(labelNames, s, calls[0]), calls[1..])
  }

  /** The sum of the increments that were accepted for the assignment `a`. */
  ghost function AcceptedSum(labelNames: seq<string>, calls: seq<Call>, a: Labels): real {
    if calls == [] then 0.0
    else
      (if Same(labelNames, AsLabels(calls[0].arg), a) then Count(Accepted(calls[0])) else 0.0)
      + AcceptedSum(labelNames, calls[1..], a)
  }

  ghost predicate CallsPipeFree(labelNames: seq<string>, calls: seq<Call>) {
    forall i :: 0 <= i < |calls| ==> PipeFree(labelNames, AsLabels(calls[i].arg))
  }

  /** The Map of a counter refines "add up what was accepted for these labels". */
  lemma {:induction false} CounterIsSum(labelNames: seq<string>, s: Series<real>, calls: seq<Call>, a: Labels)
    requires CallsPipeFree(labelNames, calls) && PipeFree(labelNames, a)
    ensures CounterValue(labelNames, CounterRun(labelNames, s, calls), Object(a))
            == CounterValue(labelNames, s, Object(a)) + AcceptedSum(labelNames, calls, a)
    decreases |calls|
  {
    hide SeriesKey;
    if calls != [] {
      assert PipeFree(labelNames, AsLabels(calls[0].arg));
      KeyIdentifiesSeries(labelNames, AsLabels(calls[0].arg), a);
      CounterIsSum(labelNames, CounterInc(labelNames, s, calls[0]), calls[1..], a);
    }
  }

  /** Whatever is passed, with or without `|`, no counter ever goes down. */
  lemma {:induction false} CounterNeverDecreases(labelNames: seq<string>, s: Series<real>, calls: seq<Call>,
                                                 labels: LabelArg)
    ensures CounterValue(labelNames, CounterRun(labelNames, s, calls), labels)
            >= CounterValue(labelNames, s, labels)
    decreases |calls|
  {
    hide SeriesKey;
    if calls != [] {
      CounterNeverDecreases(labelNames, CounterInc(labelNames, s, calls[0]), calls[1..], labels);
    }
  }

  /**
   The documented shorthand `metric.inc(5)` never applies to `inc`: its value
   parameter has a default, so a bare number adds 1, whatever the number is.
   */
  lemma IncShorthandAddsOne(s: Series<real>, n: Num)
    ensures CounterValue([], CounterInc([], s, Call(Number(n), None)), NoLabels)
            == CounterValue([], s, NoLabels) + 1.0
  {
    assert AsLabels(Number(n)) == AsLabels(NoLabels);
  }

  // ---------------------------------------------------------------- gauges

  datatype GaugeOp = SetOp(call: Call) | IncOp(call: Call) | DecOp(call: Call)

  function GaugeSet(labelNames: seq<string>, s: Series<Num>, c: Call): Series<Num> {
    var (ls, v) := Unpack(labelNames, c.arg, c.value);
    if v.Some? && v.value.Finite? then Write(s, SeriesKey(labelNames, ls), ls, v.value) else s
  }

  function GaugeInc(labelNames: seq<string>, s: Series<Num>, c: Call): Series<Num> {
    var (ls, v) := Unpack(labelNames, c.arg, Some(OrOne(c.value)));
    var k := SeriesKey(labelNames, ls);
    Write(s, k, ls, Add(OrZero(Stored(s, k)), v.value))
  }

  function GaugeDec(labelNames: seq<string>, s: Series<Num>, c: Call): Series<Num> {
    GaugeInc(labelNames, s, Call(c.arg, Some(Neg(OrOne(c.value)))))
  }

  function GaugeStep(labelNames: seq<string>, s: Series<Num>, op: GaugeOp): Series<Num> {
    match op
    case SetOp(c) => GaugeSet(labelNames, s, c)
    case IncOp(c) => GaugeInc(labelNames, s, c)
    case DecOp(c) => GaugeDec(labelNames, s, c)
  }

  function GaugeRun(labelNames: seq<string>, s: Series<Num>, ops: seq<GaugeOp>): Series<Num>
    decreases |ops|
  {
    if ops == [] then s else GaugeRun(labelNames, GaugeStep(labelNames, s, ops[0]), ops[1..])
  }

  function GaugeValue(labelNames: seq<string>, s: Series<Num>, labels: LabelArg): Num {
    OrZero(Stored(s, SeriesKey(labelNames, AsLabels(labels))))
  }

  /** One gauge as a single cell: what an operation addressed to it does to its stored value. */
  function CellStep(labelNames: seq<string>, cell: Option<Num>, op: GaugeOp): Option<Num> {
    match op
    case SetOp(c) =>
      var v := if labelNames == [] && c.arg.Number? && c.value.None? then Some(c.arg.n) else c.value;
      if v.Some? && v.value.Finite? then v else cell
    case IncOp(c) => Some(Add(OrZero(cell), OrOne(c.value)))
    case DecOp(c) => Some(Add(OrZero(cell), Neg(OrOne(c.value))))
  }

  /** The operations addressed to assignment `a`, applied to its cell alone. */
  ghost function CellRun(labelNames: seq<string>, cell: Option<Num>, ops: seq<GaugeOp>, a: Labels): Option<Num>
    decreases |ops|
  {
    if ops == [] then cell
    else
      CellRun(labelNames,
              if Same(labelNames, AsLabels(ops[0].call.arg), a) then CellStep(labelNames, cell, ops[0]) else cell,
              ops[1..], a)
  }

  lemma UnpackLabels(labelNames: seq<string>, c: Call)
    ensures Unpack(labelNames, c.arg, c.value).0 == AsLabels(c.arg)
  {
  }

  /** Any interleaving over any assignments behaves as one independent cell per assignment. */
  lemma {:induction false} GaugeIsCell(labelNames: seq<string>, s: Series<Num>, ops: seq<GaugeOp>, a: Labels)
    requires PipeFree(labelNames, a)
    requires forall i :: 0 <= i < |ops| ==> PipeFree(labelNames, AsLabels(ops[i].call.arg))
    ensures Stored(GaugeRun(labelNames, s, ops), SeriesKey(labelNames, a))
            == CellRun(labelNames, Stored(s, SeriesKey(labelNames, a)), ops, a)
    decreases |ops|
  {
    hide SeriesKey;
    if ops != [] {
      var c := ops[0].call;
      assert PipeFree(labelNames, AsLabels(c.arg));
      KeyIdentifiesSeries(labelNames, AsLabels(c.arg), a);
      UnpackLabels(labelNames, c);
      GaugeIsCell(labelNames, GaugeStep(labelNames, s, ops[0]), ops[1..], a);
    }
  }

  ghost predicate AllFinite(s: Series<Num>) {
    forall k :: k in s.values.entries ==> s.values.entries[k].Finite?
  }

  /**
   `set` drops non-finite values, `inc` and `dec` do not: the gauges stay finite
   across an operation exactly when it is a `set` or its amount is finite.
   */
  lemma GaugeStaysFiniteIff(labelNames: seq<string>, s: Series<Num>, op: GaugeOp)
    requires AllFinite(s)
    ensures AllFinite(GaugeStep(labelNames, s, op)) <==> op.SetOp? || OrOne(op.call.value).Finite?
  {
    hide SeriesKey;
    var s' := GaugeStep(labelNames, s, op);
    if !op.SetOp? && !OrOne(op.call.value).Finite? {
      var k := SeriesKey(labelNames, AsLabels(op.call.arg));
      assert k in s'.values.entries && !s'.values.entries[k].Finite?;
    }
  }

  // ---------------------------------------------------------------- histograms

  datatype Hist = Hist(counts: seq<nat>, sum: real, n: nat)

  function EmptyHist(buckets: seq<real>): Hist { Hist(seq(|buckets|, _ => 0), 0.0, 0) }

  function Bump(h: Hist, buckets: seq<real>, v: real): Hist {
    if |h.counts| != |buckets| then h
    else
      Hist(seq(|buckets|, i requires 0 <= i < |buckets| =>
                 if v <= buckets[i] then h.counts[i] + 1 else h.counts[i]),
           h.sum + v, h.n + 1)
  }

  function OrEmpty(h: Option<Hist>, buckets: seq<real>): Hist {
    if h.Some? then h.value else EmptyHist(buckets)
  }

  function HistObserve(labelNames: seq<string>, buckets: seq<real>, s: Series<Hist>, c: Call): Series<Hist> {
    var (ls, v) := Unpack(labelNames, c.arg, c.value);
    if v.Some? && v.value.Finite? then
      var k := SeriesKey(labelNames, ls);
      Write(s, k, ls, Bump(OrEmpty(Stored(s, k), buckets), buckets, v.value.v))
    else s
  }

  function HistRun(labelNames: seq<string>, buckets: seq<real>, s: Series<Hist>, calls: seq<Call>): Series<Hist>
    decreases |calls|
  {
    if calls == [] then s
    else HistRun(labelNames, buckets, HistObserve(labelNames, buckets, s, calls[0]), calls[1..])
  }

  /** What one call observes for assignment `a`: one finite value, or nothing. */
  ghost function Observed(labelNames: seq<string>, c: Call, a: Labels): seq<real> {
    var (ls, v) := Unpack(labelNames, c.arg, c.value);
    if v.Some? && v.value.Finite? && Same(labelNames, ls, a) then [v.value.v] else []
  }

  /** The finite observations made for assignment `a`, in order. */
  ghost function Observations(labelNames: seq<string>, calls: seq<Call>, a: Labels): seq<real> {
    if calls == [] then []
    else Observed(labelNames, calls[0], a) + Observations(labelNames, calls[1..], a)
  }

  function CountAtMost(obs: seq<real>, bound: real): nat {
    if obs == [] then 0
    else CountAtMost(obs[..|obs| - 1], bound) + (if obs[|obs| - 1] <= bound then 1 else 0)
  }

  function Total(obs: seq<real>): real {
    if obs == [] then 0.0 else Total(obs[..|obs| - 1]) + obs[|obs| - 1]
  }

  /** What a histogram of `obs` must hold, said without the increments that build it. */
  ghost predicate Tallies(h: Hist, buckets: seq<real>, obs: seq<real>) {
    && |h.counts| == |buckets|
    && h.n == |obs|
    && h.sum == Total(obs)
    && forall i :: 0 <= i < |buckets| ==> h.counts[i] == CountAtMost(obs, buckets[i])
  }

  ghost predicate Holds(s: Series<Hist>, k: string, buckets: seq<real>, obs: seq<real>) {
    match Stored(s, k)
    case None => obs == []
    case Some(h) => obs != [] && Tallies(h, buckets, obs)
  }

  lemma BumpTallies(h: Option<Hist>, buckets: seq<real>, obs: seq<real>, v: real)
    requires Tallies(OrEmpty(h, buckets), buckets, obs)
    ensures Tallies(Bump(OrEmpty(h, buckets), buckets, v), buckets, obs + [v])
  {
    assert (obs + [v])[..|obs|] == obs;
  }

  lemma ObserveTallies(labelNames: seq<string>, buckets: seq<real>, s: Series<Hist>, c: Call,
                       a: Labels, before: seq<real>)
    requires PipeFree(labelNames, AsLabels(c.arg)) && PipeFree(labelNames, a)
    requires Holds(s, SeriesKey(labelNames, a), buckets, before)
    ensures Holds(HistObserve(labelNames, buckets, s, c), SeriesKey(labelNames, a), buckets,
                  before + Observed(labelNames, c, a))
  {
    hide SeriesKey;
    UnpackLabels(labelNames, c);
    KeyIdentifiesSeries(labelNames, AsLabels(c.arg), a);
    var v := Unpack(labelNames, c.arg, c.value).1;
    if Observed(labelNames, c, a) == [] {
      assert before + [] == before;
    } else {
      BumpTallies(Stored(s, SeriesKey(labelNames, a)), buckets, before, v.value.v);
    }
  }

  /** Every series holds exactly the tally of the finite observations made under its labels. */
  lemma {:induction false} HistogramIsTally(labelNames: seq<string>, buckets: seq<real>, s: Series<Hist>,
                                            calls: seq<Call>, a: Labels, before: seq<real>)
    requires CallsPipeFree(labelNames, calls) && PipeFree(labelNames, a)
    requires Holds(s, SeriesKey(labelNames, a), buckets, before)
    ensures Holds(HistRun(labelNames, buckets, s, calls), SeriesKey(labelNames, a), buckets,
                  before + Observations(labelNames, calls, a))
    decreases |calls|
  {
    hide SeriesKey, HistObserve, Tallies, Observed;
    if calls == [] {
      assert before + [] == before;
    } else {
      assert PipeFree(labelNames, AsLabels(calls[0].arg));
      ObserveTallies(labelNames, buckets, s, calls[0], a, before);
      var seen := before + Observed(labelNames, calls[0], a);
      HistogramIsTally(labelNames, buckets, HistObserve(labelNames, buckets, s, calls[0]), calls[1..], a, seen);
      assert seen + Observations(labelNames, calls[1..], a) == before + Observations(labelNames, calls, a);
    }
  }

  lemma {:induction false} CountMonotone(obs: seq<real>, x: real, y: real)
    requires x <= y
    ensures CountAtMost(obs, x) <= CountAtMost(obs, y) <= |obs|
  {
    if obs != [] { CountMonotone(obs[..|obs| - 1], x, y); }
  }

  predicate RealLe(a: real, b: real) { a <= b }

  function SortReals(s: seq<real>): seq<real> { Sorting.Sort(s, RealLe) }

  /**
   The printed bucket column: with the constructor's sorted buckets, counts never
   decrease from one bucket to the next and never exceed the `+Inf` count.
   */
  lemma BucketsAreCumulative(h: Hist, declared: seq<real>, obs: seq<real>)
    requires Tallies(h, SortReals(declared), obs)
    ensures forall i, j :: 0 <= i <= j < |h.counts| ==> h.counts[i] <= h.counts[j] <= h.n
  {
    Sorting.SortSorted(declared, RealLe);
    var buckets := SortReals(declared);
    forall i, j | 0 <= i <= j < |h.counts| ensures h.counts[i] <= h.counts[j] <= h.n {
      CountMonotone(obs, buckets[i], buckets[j]);
    }
  }

  // ---------------------------------------------------------------- the labels kept with a series

  /** The labels object kept under a key has that key. */
  ghost predicate Keyed<V(!new)>(labelNames: seq<string>, s: Series<V>) {
    forall k :: k in s.values.entries ==>
      k in s.labels.entries && SeriesKey(labelNames, s.labels.entries[k]) == k
  }

  ghost predicate LabelsPipeFree<V(!new)>(labelNames: seq<string>, s: Series<V>) {
    forall k :: k in s.labels.entries ==> PipeFree(labelNames, s.labels.entries[k])
  }

  lemma WriteKeeps<V(!new)>(labelNames: seq<string>, s: Series<V>, ls: Labels, v: V)
    requires Keyed(labelNames, s)
    ensures Keyed(labelNames, Write(s, SeriesKey(labelNames, ls), ls, v))
    ensures LabelsPipeFree(labelNames, s) && PipeFree(labelNames, ls) ==>
              LabelsPipeFree(labelNames, Write(s, SeriesKey(labelNames, ls), ls, v))
  {
    hide SeriesKey, PipeFree;
  }

  lemma {:induction false} CounterRunKeyed(labelNames: seq<string>, s: Series<real>, calls: seq<Call>)
    requires Keyed(labelNames, s)
    ensures Keyed(labelNames, CounterRun(labelNames, s, calls))
    ensures LabelsPipeFree(labelNames, s) && CallsPipeFree(labelNames, calls) ==>
              LabelsPipeFree(labelNames, CounterRun(labelNames, s, calls))
    decreases |calls|
  {
    hide SeriesKey, PipeFree, Keyed, LabelsPipeFree, Write;
    if calls != [] {
      var c := calls[0];
      var (ls, v) := Unpack(labelNames, c.arg, Some(OrOne(c.value)));
      if v.value.Finite? {
        WriteKeeps(labelNames, s, ls, Count(Stored(s, SeriesKey(labelNames, ls))) + v.value.v);
      }
      CounterRunKeyed(labelNames, CounterInc(labelNames, s, c), calls[1..]);
    }
  }

  ghost predicate OpsPipeFree(labelNames: seq<string>, ops: seq<GaugeOp>) {
    forall i :: 0 <= i < |ops| ==> PipeFree(labelNames, AsLabels(ops[i].call.arg))
  }

  lemma GaugeStepKeyed(labelNames: seq<string>, s: Series<Num>, op: GaugeOp)
    requires Keyed(labelNames, s)
    ensures Keyed(labelNames, GaugeStep(labelNames, s, op))
    ensures LabelsPipeFree(labelNames, s) && PipeFree(labelNames, AsLabels(op.call.arg)) ==>
              LabelsPipeFree(labelNames, GaugeStep(labelNames, s, op))
  {
    hide SeriesKey, PipeFree, Keyed, LabelsPipeFree, Write;
    var c := op.call;
    var (ls, v) := Unpack(labelNames, c.arg, c.value);
    UnpackLabels(labelNames, c);
    var before := OrZero(Stored(s, SeriesKey(labelNames, ls)));
    match op
    case SetOp(_) => if v.Some? { WriteKeeps(labelNames, s, ls, v.value); }
    case IncOp(_) => WriteKeeps(labelNames, s, ls, Add(before, OrOne(c.value)));
    case DecOp(_) => WriteKeeps(labelNames, s, ls, Add(before, Neg(OrOne(c.value))));
  }

  lemma {:induction false} GaugeRunKeyed(labelNames: seq<string>, s: Series<Num>, ops: seq<GaugeOp>)
    requires Keyed(labelNames, s)
    ensures Keyed(labelNames, GaugeRun(labelNames, s, ops))
    ensures LabelsPipeFree(labelNames, s) && OpsPipeFree(labelNames, ops) ==>
              LabelsPipeFree(labelNames, GaugeRun(labelNames, s, ops))
    decreases |ops|
  {
    hide SeriesKey, PipeFree, Keyed, LabelsPipeFree, GaugeStep;
    if ops != [] {
      GaugeStepKeyed(labelNames, s, ops[0]);
      GaugeRunKeyed(labelNames, GaugeStep(labelNames, s, ops[0]), ops[1..]);
    }
  }

  lemma {:induction false} HistRunKeyed(labelNames: seq<string>, buckets: seq<real>, s: Series<Hist>, calls: seq<Call>)
    requires Keyed(labelNames, s)
    ensures Keyed(labelNames, HistRun(labelNames, buckets, s, calls))
    ensures LabelsPipeFree(labelNames, s) && CallsPipeFree(labelNames, calls) ==>
              LabelsPipeFree(labelNames, HistRun(labelNames, buckets, s, calls))
    decreases |calls|
  {
    hide SeriesKey, PipeFree, Keyed, LabelsPipeFree, Write, Bump;
    if calls != [] {
      var c := calls[0];
      var (ls, v) := Unpack(labelNames, c.arg, c.value);
      UnpackLabels(labelNames, c);
      if v.Some? && v.value.Finite? {
        var h := OrEmpty(Stored(s, SeriesKey(labelNames, ls)), buckets);
        WriteKeeps(labelNames, s, ls, Bump(h, buckets, v.value.v));
      }
      HistRunKeyed(labelNames, buckets, HistObserve(labelNames, buckets, s, c), calls[1..]);
    }
  }

  /** Every counter series holds the accepted sum of the very labels kept with it. */
  lemma CounterSeriesIsSum(labelNames: seq<string>, calls: seq<Call>, k: string)
    requires CallsPipeFree(labelNames, calls)
    requires k in CounterRun(labelNames, NoSeries(), calls).values.entries
    ensures var s := CounterRun(labelNames, NoSeries(), calls);
            && k in s.labels.entries && SeriesKey(labelNames, s.labels.entries[k]) == k
            && s.values.entries[k] == AcceptedSum(labelNames, calls, s.labels.entries[k])
  {
    hide SeriesKey, PipeFree, CounterRun, AcceptedSum;
    CounterRunKeyed(labelNames, NoSeries(), calls);
    var a := CounterRun(labelNames, NoSeries(), calls).labels.entries[k];
    CounterIsSum(labelNames, NoSeries(), calls, a);
  }

  /** Every gauge series holds what its own labels' cell holds. */
  lemma GaugeSeriesIsCell(labelNames: seq<string>, ops: seq<GaugeOp>, k: string)
    requires OpsPipeFree(labelNames, ops)
    requires k in GaugeRun(labelNames, NoSeries(), ops).values.entries
    ensures var s := GaugeRun(labelNames, NoSeries(), ops);
            && k in s.labels.entries && SeriesKey(labelNames, s.labels.entries[k]) == k
            && Some(s.values.entries[k]) == CellRun(labelNames, None, ops, s.labels.entries[k])
  {
    hide SeriesKey, PipeFree, GaugeRun, CellRun;
    GaugeRunKeyed(labelNames, NoSeries(), ops);
    var a := GaugeRun(labelNames, NoSeries(), ops).labels.entries[k];
    GaugeIsCell(labelNames, NoSeries(), ops, a);
  }

  /** Every histogram series tallies the observations made with the labels kept with it. */
  lemma HistogramSeriesIsTally(labelNames: seq<string>, buckets: seq<real>, calls: seq<Call>, k: string)
    requires CallsPipeFree(labelNames, calls)
    requires k in HistRun(labelNames, buckets, NoSeries(), calls).values.entries
    ensures var s := HistRun(labelNames, buckets, NoSeries(), calls);
            && k in s.labels.entries && SeriesKey(labelNames, s.labels.entries[k]) == k
            && Tallies(s.values.entries[k], buckets, Observations(labelNames, calls, s.labels.entries[k]))
  {
    hide SeriesKey, PipeFree, HistRun, Tallies, Observations;
    HistRunKeyed(labelNames, buckets, NoSeries(), calls);
    var a := HistRun(labelNames, buckets, NoSeries(), calls).labels.entries[k];
    HistogramIsTally(labelNames, buckets, NoSeries(), calls, a, []);
    assert [] + Observations(labelNames, calls, a) == Observations(labelNames, calls, a);
  }

  /** An assignment with an accepted increment has a series. */
  lemma {:induction false} AcceptedIsStored(labelNames: seq<string>, s: Series<real>, calls: seq<Call>, k: string)
    requires || k in s.values.entries
             || exists i :: 0 <= i < |calls| && Accepted(calls[i]).Some?
                            && SeriesKey(labelNames, AsLabels(calls[i].arg)) == k
    ensures k in CounterRun(labelNames, s, calls).values.entries
    decreases |calls|
  {
    hide SeriesKey;
    if calls != [] {
      if k !in s.values.entries {
        var i :| 0 <= i < |calls| && Accepted(calls[i]).Some?
                 && SeriesKey(labelNames, AsLabels(calls[i].arg)) == k;
        if i > 0 { assert calls[1..][i - 1] == calls[i]; }
      }
      AcceptedIsStored(labelNames, CounterInc(labelNames, s, calls[0]), calls[1..], k);
    }
  }
}
