/**
 What the text of a scrape (backend/src/observability/metrics.js:71-188) says about the calls
 made on the metrics it prints.
 */
module MetricsScrape {
  import opened Wrappers
  import opened Metrics
  import opened MetricsText
  import opened MetricsRegistry
  import JsMap
  import Sorting

  // ---------------------------------------------------------------- families in a scrape

  /** How many of the metrics before the `i`-th are printed. */
  function Shown(ms: seq<Snapshot>, i: nat): nat
    requires i <= |ms|
  {
    if i == 0 then 0 else (if Keys(ms[0].data) == [] then 0 else 1) + Shown(ms[1..], i - 1)
  }

  lemma {:induction false} FamilyAt(ms: seq<Snapshot>, i: nat, fmt: Format)
    requires i < |ms| && Keys(ms[i].data) != []
    ensures Shown(ms, i) < |DocOf(ms, fmt)| && DocOf(ms, fmt)[Shown(ms, i)] == FamilyOf(ms[i], fmt)
    decreases i
  {
    hide FamilyOf;
    if i > 0 { FamilyAt(ms[1..], i - 1, fmt); }
  }

  /** What reading the text back gives for one metric among others. */
  lemma ReadsFamily(ms: seq<Snapshot>, i: nat, fmt: Format)
    requires OneLine(fmt) && forall j :: 0 <= j < |ms| ==> PrintableSnapshot(ms[j])
    requires i < |ms| && Keys(ms[i].data) != []
    ensures var read := ReadDoc(RenderText(ms, fmt));
            && read.Some? && Shown(ms, i) < |read.value|
            && read.value[Shown(ms, i)] == FamilyOf(ms[i], fmt)
  {
    RenderReadsBack(ms, fmt);
    FamilyAt(ms, i, fmt);
  }

  /** The labels kept with the listed series. */
  function LabelsAlong<V>(s: Series<V>, keys: seq<string>): (r: seq<Labels>)
    requires forall k :: k in keys ==> k in s.labels.entries
    ensures |r| == |keys|
  {
    seq(|keys|, i requires 0 <= i < |keys| => s.labels.entries[keys[i]])
  }

  /** No two of the labels objects agree on the declared labels. */
  ghost predicate AllDiffer(labelNames: seq<string>, ls: seq<Labels>) {
    forall i, j :: 0 <= i < j < |ls| ==> !Same(labelNames, ls[i], ls[j])
  }

  lemma KeyedDiffer<V(!new)>(labelNames: seq<string>, s: Series<V>, keys: seq<string>)
    requires Keyed(labelNames, s) && LabelsPipeFree(labelNames, s) && Sorting.NoDup(keys)
    requires forall k :: k in keys ==> k in s.values.entries && k in s.labels.entries
    ensures AllDiffer(labelNames, LabelsAlong(s, keys))
  {
    hide SeriesKey, PipeFree, Same;
    var ls := LabelsAlong(s, keys);
    forall i, j | 0 <= i < j < |ls| ensures !Same(labelNames, ls[i], ls[j]) {
      assert keys[i] in keys && keys[j] in keys;
      KeyIdentifiesSeries(labelNames, ls[i], ls[j]);
    }
  }

  // ---------------------------------------------------------------- counters

  /** The sample that reports the accepted sum of the labels `l`. */
  ghost function SumSample(name: string, labelNames: seq<string>, calls: seq<Call>, l: Labels, fmt: Format): Sample {
    Sample(name, SortedPairs(l), fmt(Finite(AcceptedSum(labelNames, calls, l))))
  }

  lemma {:induction false} CounterSamples(name: string, help: string, labelNames: seq<string>, calls: seq<Call>,
                                          keys: seq<string>, fmt: Format)
    requires CallsPipeFree(labelNames, calls)
    requires forall k :: k in keys ==> k in CounterRun(labelNames, NoSeries(), calls).values.entries
    ensures var s := CounterRun(labelNames, NoSeries(), calls);
            var samples := SamplesFor(Snapshot(name, help, CounterData(s)), keys, fmt);
            && |samples| == |keys|
            && forall i :: 0 <= i < |keys| ==>
                 && keys[i] in s.labels.entries
                 && samples[i] == SumSample(name, labelNames, calls, s.labels.entries[keys[i]], fmt)
  {
    hide SortedPairs, CounterRun, AcceptedSum, CallsPipeFree, SeriesKey;
    if keys != [] {
      assert keys[0] in keys && forall k :: k in keys[1..] ==> k in keys;
      CounterSeriesIsSum(labelNames, calls, keys[0]);
      CounterSamples(name, help, labelNames, calls, keys[1..], fmt);
    }
  }

  /**
   A counter from its first call to a scrape with any other metrics: the text reads back to a
   family at the counter's place whose samples each carry the accepted sum of exactly the
   labels they are printed with; no two of them have the same labels; and every assignment
   with an accepted increment is there.
   */
  lemma ScrapeShowsSums(ms: seq<Snapshot>, at: nat, name: string, help: string, labelNames: seq<string>,
                        calls: seq<Call>, fmt: Format)
    requires CallsPipeFree(labelNames, calls) && OneLine(fmt)
    requires exists i :: 0 <= i < |calls| && Accepted(calls[i]).Some?
    requires forall i :: 0 <= i < |ms| ==> PrintableSnapshot(ms[i])
    requires at < |ms| && ms[at] == Snapshot(name, help, CounterData(CounterRun(labelNames, NoSeries(), calls)))
    ensures var s := CounterRun(labelNames, NoSeries(), calls);
            var order := s.values.order;
            var read := ReadDoc(RenderText(ms, fmt));
            && read.Some? && Shown(ms, at) < |read.value|
            && (forall k :: k in order ==> k in s.labels.entries)
            && var (family, ls) := (read.value[Shown(ms, at)], LabelsAlong(s, order));
            && family.name == name && family.help == help && family.kind == "counter" && |family.samples| == |ls|
            && (forall i :: 0 <= i < |ls| ==>
                  family.samples[i] == SumSample(name, labelNames, calls, ls[i], fmt))
            && AllDiffer(labelNames, ls)
            && (forall i :: 0 <= i < |calls| && Accepted(calls[i]).Some? ==>
                  exists j :: 0 <= j < |ls| && Same(labelNames, ls[j], AsLabels(calls[i].arg)))
  {
    hide SeriesKey, CounterRun, AcceptedSum, SortedPairs, Same, SumSample, PrintableSnapshot, RenderText, SamplesFor;
    hide Accepted, ReadDoc, Shown, AllDiffer, CallsPipeFree, OneLine;
    var s := CounterRun(labelNames, NoSeries(), calls);
    var order := s.values.order;
    CounterSamples(name, help, labelNames, calls, order, fmt);
    CounterRunKeyed(labelNames, NoSeries(), calls);
    var first :| 0 <= first < |calls| && Accepted(calls[first]).Some?;
    CallHasSeries(labelNames, calls, first);
    ReadsFamily(ms, at, fmt);
    KeyedDiffer(labelNames, s, order);
    var ls := LabelsAlong(s, order);
    forall i | 0 <= i < |calls| && Accepted(calls[i]).Some?
      ensures exists j :: 0 <= j < |ls| && Same(labelNames, ls[j], AsLabels(calls[i].arg))
    {
      CallHasSeries(labelNames, calls, i);
      var j :| 0 <= j < |order| && Same(labelNames, s.labels.entries[order[j]], AsLabels(calls[i].arg));
      assert ls[j] == s.labels.entries[order[j]];
    }
  }

  lemma CallHasSeries(labelNames: seq<string>, calls: seq<Call>, i: nat)
    requires CallsPipeFree(labelNames, calls) && i < |calls| && Accepted(calls[i]).Some?
    ensures var s := CounterRun(labelNames, NoSeries(), calls);
            && (forall k :: k in s.values.order ==> k in s.labels.entries)
            && exists j :: 0 <= j < |s.values.order|
                           && Same(labelNames, s.labels.entries[s.values.order[j]], AsLabels(calls[i].arg))
  {
    hide SeriesKey, CounterRun, Same, PipeFree;
    var s := CounterRun(labelNames, NoSeries(), calls);
    var a := AsLabels(calls[i].arg);
    var k := SeriesKey(labelNames, a);
    AcceptedIsStored(labelNames, NoSeries(), calls, k);
    CounterRunKeyed(labelNames, NoSeries(), calls);
    KeyIdentifiesSeries(labelNames, s.labels.entries[k], a);
    assert k in s.values.order;
    var j :| 0 <= j < |s.values.order| && s.values.order[j] == k;
  }

  // ---------------------------------------------------------------- gauges

  /** The sample shows what one cell holds after the operations made with the labels `l`. */
  ghost predicate ShowsCell(name: string, labelNames: seq<string>, ops: seq<GaugeOp>, l: Labels, fmt: Format,
                            sample: Sample)
  {
    var cell := CellRun(labelNames, None, ops, l);
    cell.Some? && sample == Sample(name, SortedPairs(l), fmt(cell.value))
  }

  lemma {:induction false} GaugeSamples(name: string, help: string, labelNames: seq<string>, ops: seq<GaugeOp>,
                                        keys: seq<string>, fmt: Format)
    requires OpsPipeFree(labelNames, ops)
    requires forall k :: k in keys ==> k in GaugeRun(labelNames, NoSeries(), ops).values.entries
    ensures var s := GaugeRun(labelNames, NoSeries(), ops);
            var samples := SamplesFor(Snapshot(name, help, GaugeData(s)), keys, fmt);
            && |samples| == |keys|
            && forall i :: 0 <= i < |keys| ==>
                 keys[i] in s.labels.entries
                 && ShowsCell(name, labelNames, ops, s.labels.entries[keys[i]], fmt, samples[i])
  {
    hide SortedPairs, GaugeRun, CellRun, OpsPipeFree, SeriesKey;
    if keys != [] {
      assert keys[0] in keys && forall k :: k in keys[1..] ==> k in keys;
      GaugeSeriesIsCell(labelNames, ops, keys[0]);
      GaugeSamples(name, help, labelNames, ops, keys[1..], fmt);
    }
  }

  /** An increment, a decrement, or a set to a finite value. */
  predicate Writes(labelNames: seq<string>, op: GaugeOp) {
    op.SetOp? ==> Observes(labelNames, op.call)
  }

  lemma {:induction false} CellStays(labelNames: seq<string>, cell: Option<Num>, ops: seq<GaugeOp>, a: Labels)
    requires cell.Some?
    ensures CellRun(labelNames, cell, ops, a).Some?
    decreases |ops|
  {
    hide Same;
    if ops != [] {
      CellStays(labelNames, if Same(labelNames, AsLabels(ops[0].call.arg), a)
                            then CellStep(labelNames, cell, ops[0]) else cell, ops[1..], a);
    }
  }

  lemma {:induction false} WrittenCell(labelNames: seq<string>, cell: Option<Num>, ops: seq<GaugeOp>, i: nat)
    requires i < |ops| && Writes(labelNames, ops[i])
    ensures CellRun(labelNames, cell, ops, AsLabels(ops[i].call.arg)).Some?
    decreases i
  {
    var a := AsLabels(ops[i].call.arg);
    var next := if Same(labelNames, AsLabels(ops[0].call.arg), a) then CellStep(labelNames, cell, ops[0]) else cell;
    if i == 0 {
      CellStays(labelNames, next, ops[1..], a);
    } else {
      WrittenCell(labelNames, next, ops[1..], i - 1);
    }
  }

  lemma OpHasSeries(labelNames: seq<string>, ops: seq<GaugeOp>, i: nat)
    requires OpsPipeFree(labelNames, ops) && i < |ops| && Writes(labelNames, ops[i])
    ensures var s := GaugeRun(labelNames, NoSeries(), ops);
            && (forall k :: k in s.values.order ==> k in s.labels.entries)
            && exists j :: 0 <= j < |s.values.order|
                           && Same(labelNames, s.labels.entries[s.values.order[j]], AsLabels(ops[i].call.arg))
  {
    hide SeriesKey, GaugeRun, CellRun, Same, PipeFree, Writes;
    var s := GaugeRun(labelNames, NoSeries(), ops);
    var a := AsLabels(ops[i].call.arg);
    var k := SeriesKey(labelNames, a);
    WrittenCell(labelNames, None, ops, i);
    GaugeIsCell(labelNames, NoSeries(), ops, a);
    GaugeRunKeyed(labelNames, NoSeries(), ops);
    KeyIdentifiesSeries(labelNames, s.labels.entries[k], a);
    assert k in s.values.order;
    var j :| 0 <= j < |s.values.order| && s.values.order[j] == k;
  }

  /**
   A gauge from its first operation to a scrape with any other metrics: one sample per
   assignment, each showing the cell of exactly the labels printed with it; no two have the
   same labels; and every operation that writes has its sample.
   */
  lemma ScrapeShowsCells(ms: seq<Snapshot>, at: nat, name: string, help: string, labelNames: seq<string>,
                         ops: seq<GaugeOp>, fmt: Format)
    requires OpsPipeFree(labelNames, ops) && OneLine(fmt)
    requires exists i :: 0 <= i < |ops| && Writes(labelNames, ops[i])
    requires forall i :: 0 <= i < |ms| ==> PrintableSnapshot(ms[i])
    requires at < |ms| && ms[at] == Snapshot(name, help, GaugeData(GaugeRun(labelNames, NoSeries(), ops)))
    ensures var s := GaugeRun(labelNames, NoSeries(), ops);
            var order := s.values.order;
            var read := ReadDoc(RenderText(ms, fmt));
            && read.Some? && Shown(ms, at) < |read.value|
            && (forall k :: k in order ==> k in s.labels.entries)
            && var (family, ls) := (read.value[Shown(ms, at)], LabelsAlong(s, order));
            && family.name == name && family.help == help && family.kind == "gauge" && |family.samples| == |ls|
            && (forall i :: 0 <= i < |ls| ==>
                  ShowsCell(name, labelNames, ops, ls[i], fmt, family.samples[i]))
            && AllDiffer(labelNames, ls)
            && (forall i :: 0 <= i < |ops| && Writes(labelNames, ops[i]) ==>
                  exists j :: 0 <= j < |ls| && Same(labelNames, ls[j], AsLabels(ops[i].call.arg)))
  {
    hide SeriesKey, GaugeRun, CellRun, SortedPairs, Same, ShowsCell, PrintableSnapshot, RenderText, SamplesFor;
    hide Writes, ReadDoc, Shown, AllDiffer, OpsPipeFree, OneLine;
    var s := GaugeRun(labelNames, NoSeries(), ops);
    var order := s.values.order;
    GaugeSamples(name, help, labelNames, ops, order, fmt);
    GaugeRunKeyed(labelNames, NoSeries(), ops);
    var first :| 0 <= first < |ops| && Writes(labelNames, ops[first]);
    OpHasSeries(labelNames, ops, first);
    ReadsFamily(ms, at, fmt);
    KeyedDiffer(labelNames, s, order);
    var ls := LabelsAlong(s, order);
    forall i | 0 <= i < |ops| && Writes(labelNames, ops[i])
      ensures exists j :: 0 <= j < |ls| && Same(labelNames, ls[j], AsLabels(ops[i].call.arg))
    {
      OpHasSeries(labelNames, ops, i);
      var j :| 0 <= j < |order| && Same(labelNames, s.labels.entries[order[j]], AsLabels(ops[i].call.arg));
      assert ls[j] == s.labels.entries[order[j]];
    }
  }

  // ---------------------------------------------------------------- histograms

  /** The samples that report the observations `obs` made with the labels `l`. */
  ghost function TallySamples(name: string, l: Labels, buckets: seq<real>, obs: seq<real>, fmt: Format)
    : seq<Sample>
  {
    seq(|buckets|, b requires 0 <= b < |buckets| =>
          Sample(name + "_bucket", SortedPairs(JsMap.Set(l, "le", fmt(Finite(buckets[b])))),
                 fmt(Finite(CountAtMost(obs, buckets[b]) as real))))
    + [Sample(name + "_bucket", SortedPairs(JsMap.Set(l, "le", "+Inf")), fmt(Finite(|obs| as real))),
       Sample(name + "_sum", SortedPairs(l), fmt(Finite(Total(obs)))),
       Sample(name + "_count", SortedPairs(l), fmt(Finite(|obs| as real)))]
  }

  /** One block per labels object, each reporting its own observations. */
  ghost function TallyBlocks(name: string, labelNames: seq<string>, calls: seq<Call>, buckets: seq<real>,
                             ls: seq<Labels>, fmt: Format): seq<Sample>
  {
    if ls == [] then []
    else
      TallySamples(name, ls[0], buckets, Observations(labelNames, calls, ls[0]), fmt)
      + TallyBlocks(name, labelNames, calls, buckets, ls[1..], fmt)
  }

  lemma {:induction false} BucketSamplesTally(name: string, l: Labels, buckets: seq<real>, counts: seq<nat>,
                                              obs: seq<real>, fmt: Format)
    requires |counts| == |buckets| && forall b :: 0 <= b < |buckets| ==> counts[b] == CountAtMost(obs, buckets[b])
    ensures BucketSamples(name, l, buckets, counts, fmt)
            == seq(|buckets|, b requires 0 <= b < |buckets| =>
                     Sample(name + "_bucket", SortedPairs(JsMap.Set(l, "le", fmt(Finite(buckets[b])))),
                            fmt(Finite(CountAtMost(obs, buckets[b]) as real))))
  {
    hide SortedPairs, CountAtMost, JsMap.Set;
    if buckets != [] { BucketSamplesTally(name, l, buckets[1..], counts[1..], obs, fmt); }
  }

  lemma {:induction false} HistogramSamples(name: string, help: string, labelNames: seq<string>,
                                            buckets: seq<real>, calls: seq<Call>, keys: seq<string>, fmt: Format)
    requires CallsPipeFree(labelNames, calls)
    requires forall k :: k in keys ==> k in HistRun(labelNames, buckets, NoSeries(), calls).values.entries
    ensures var s := HistRun(labelNames, buckets, NoSeries(), calls);
            && (forall k :: k in keys ==> k in s.labels.entries)
            && SamplesFor(Snapshot(name, help, HistogramData(buckets, s)), keys, fmt)
               == TallyBlocks(name, labelNames, calls, buckets, LabelsAlong(s, keys), fmt)
  {
    hide SortedPairs, HistRun, Observations, CallsPipeFree, SeriesKey, BucketSamples, CountAtMost, Total;
    if keys != [] {
      var s := HistRun(labelNames, buckets, NoSeries(), calls);
      assert keys[0] in keys && forall k :: k in keys[1..] ==> k in keys;
      HistogramSeriesIsTally(labelNames, buckets, calls, keys[0]);
      var l := s.labels.entries[keys[0]];
      var obs := Observations(labelNames, calls, l);
      BucketSamplesTally(name, l, buckets, s.values.entries[keys[0]].counts, obs, fmt);
      HistogramSamples(name, help, labelNames, buckets, calls, keys[1..], fmt);
      assert LabelsAlong(s, keys)[1..] == LabelsAlong(s, keys[1..]);
    }
  }

  /** A finite observation, and so its assignment, has a series. */
  lemma ObservationHasSeries(labelNames: seq<string>, buckets: seq<real>, calls: seq<Call>, i: nat)
    requires CallsPipeFree(labelNames, calls) && i < |calls| && Observes(labelNames, calls[i])
    ensures var s := HistRun(labelNames, buckets, NoSeries(), calls);
            && (forall k :: k in s.values.order ==> k in s.labels.entries)
            && exists j :: 0 <= j < |s.values.order|
                           && Same(labelNames, s.labels.entries[s.values.order[j]], AsLabels(calls[i].arg))
  {
    hide SeriesKey, HistRun, Same, PipeFree, Tallies;
    var s := HistRun(labelNames, buckets, NoSeries(), calls);
    var a := AsLabels(calls[i].arg);
    var k := SeriesKey(labelNames, a);
    ObservedIsCounted(labelNames, calls, i);
    HistogramIsTally(labelNames, buckets, NoSeries(), calls, a, []);
    HistRunKeyed(labelNames, buckets, NoSeries(), calls);
    KeyIdentifiesSeries(labelNames, s.labels.entries[k], a);
    assert k in s.values.order;
    var j :| 0 <= j < |s.values.order| && s.values.order[j] == k;
  }

  /** The call observes a finite value. */
  predicate Observes(labelNames: seq<string>, c: Call) {
    var v := Unpack(labelNames, c.arg, c.value).1;
    v.Some? && v.value.Finite?
  }

  lemma {:induction false} ObservedIsCounted(labelNames: seq<string>, calls: seq<Call>, i: nat)
    requires i < |calls| && Observes(labelNames, calls[i])
    ensures Observations(labelNames, calls, AsLabels(calls[i].arg)) != []
    decreases i
  {
    if i == 0 {
      UnpackLabels(labelNames, calls[0]);
    } else {
      ObservedIsCounted(labelNames, calls[1..], i - 1);
    }
  }

  /**
   A histogram from its first call to a scrape with any other metrics: its family holds one
   block per assignment that was observed, no two alike, and each block reports exactly the
   observations made with the labels printed on it. The printed bucket counts never decrease
   and stay within the count that `+Inf` and `_count` both show.
   */
  lemma ScrapeShowsTallies(ms: seq<Snapshot>, at: nat, name: string, help: string, labelNames: seq<string>,
                           declared: seq<real>, calls: seq<Call>, fmt: Format)
    requires CallsPipeFree(labelNames, calls) && OneLine(fmt)
    requires exists i :: 0 <= i < |calls| && Observes(labelNames, calls[i])
    requires forall i :: 0 <= i < |ms| ==> PrintableSnapshot(ms[i])
    requires at < |ms|
    requires var buckets := SortReals(declared);
             ms[at] == Snapshot(name, help, HistogramData(buckets, HistRun(labelNames, buckets, NoSeries(), calls)))
    ensures var buckets := SortReals(declared);
            var s := HistRun(labelNames, buckets, NoSeries(), calls);
            var read := ReadDoc(RenderText(ms, fmt));
            && read.Some? && Shown(ms, at) < |read.value|
            && (forall k :: k in s.values.order ==> k in s.labels.entries)
            && var (family, ls) := (read.value[Shown(ms, at)], LabelsAlong(s, s.values.order));
            && family.name == name && family.help == help && family.kind == "histogram"
            && family.samples == TallyBlocks(name, labelNames, calls, buckets, ls, fmt)
            && AllDiffer(labelNames, ls)
            && (forall i :: 0 <= i < |calls| && Observes(labelNames, calls[i]) ==>
                  exists j :: 0 <= j < |ls| && Same(labelNames, ls[j], AsLabels(calls[i].arg)))
    ensures forall obs :: Grows(obs, SortReals(declared))
  {
    hide SeriesKey, HistRun, SortedPairs, Same, PrintableSnapshot, RenderText, SamplesFor, TallyBlocks, SortReals;
    hide Observes, ReadDoc, Shown, Grows, AllDiffer, CallsPipeFree, OneLine;
    var buckets := SortReals(declared);
    var s := HistRun(labelNames, buckets, NoSeries(), calls);
    var order := s.values.order;
    HistogramSamples(name, help, labelNames, buckets, calls, order, fmt);
    HistRunKeyed(labelNames, buckets, NoSeries(), calls);
    var first :| 0 <= first < |calls| && Observes(labelNames, calls[first]);
    ObservationHasSeries(labelNames, buckets, calls, first);
    ReadsFamily(ms, at, fmt);
    KeyedDiffer(labelNames, s, order);
    var ls := LabelsAlong(s, order);
    forall i | 0 <= i < |calls| && Observes(labelNames, calls[i])
      ensures exists j :: 0 <= j < |ls| && Same(labelNames, ls[j], AsLabels(calls[i].arg))
    {
      ObservationHasSeries(labelNames, buckets, calls, i);
      var j :| 0 <= j < |order| && Same(labelNames, s.labels.entries[order[j]], AsLabels(calls[i].arg));
      assert ls[j] == s.labels.entries[order[j]];
    }
    ColumnsGrow(declared);
  }

  /** The counts never decrease along the buckets and stay within the total. */
  ghost predicate Grows(obs: seq<real>, buckets: seq<real>) {
    forall i, j :: 0 <= i <= j < |buckets| ==>
      CountAtMost(obs, buckets[i]) <= CountAtMost(obs, buckets[j]) <= |obs|
  }

  lemma ColumnsGrow(declared: seq<real>)
    ensures forall obs :: Grows(obs, SortReals(declared))
  {
    Sorting.SortSorted(declared, RealLe);
    var buckets := SortReals(declared);
    hide SortReals, Sorting.Sort;
    forall obs ensures Grows(obs, buckets) {
      forall i, j | 0 <= i <= j < |buckets|
        ensures CountAtMost(obs, buckets[i]) <= CountAtMost(obs, buckets[j]) <= |obs|
      {
        CountMonotone(obs, buckets[i], buckets[j]);
      }
    }
  }
}
