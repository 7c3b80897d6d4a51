/**
 The metric objects and the registry that prints them
 (backend/src/observability/metrics.js:42-189).
 */
module MetricsRegistry {
  import opened Wrappers
  import opened JsStrings
  import opened Metrics
  import opened MetricsText
  import Sorting
  import JsMap

  /** `String(n)`: left open, so that every result holds whatever the runtime prints for a number. */
  type Format = Num -> string

  // ---------------------------------------------------------------- what a scrape shows

  datatype Data =
    | CounterData(c: Series<real>)
    | GaugeData(g: Series<Num>)
    | HistogramData(buckets: seq<real>, h: Series<Hist>)

  /** A metric object's printable content at one moment. */
  datatype Snapshot = Snapshot(name: string, help: string, data: Data)

  function Kind(d: Data): string {
    match d
    case CounterData(_) => "counter"
    case GaugeData(_) => "gauge"
    case HistogramData(_, _) => "histogram"
  }

  function Keys(d: Data): seq<string> {
    match d
    case CounterData(c) => c.values.order
    case GaugeData(g) => g.values.order
    case HistogramData(_, h) => h.values.order
  }

  function StoredLabels(d: Data): JsMap.Map<string, Labels> {
    match d
    case CounterData(c) => c.labels
    case GaugeData(g) => g.labels
    case HistogramData(_, h) => h.labels
  }

  /** `_labels(k)`. */
  function LabelsOf(d: Data, k: string): Labels {
    if k in StoredLabels(d).entries then StoredLabels(d).entries[k] else JsMap.Empty()
  }

  function Pairs(names: seq<string>, labels: Labels): seq<(string, string)> {
    if names == [] then [] else [(names[0], LabelValue(labels, names[0]))] + Pairs(names[1..], labels)
  }

  function SortedPairs(labels: Labels): seq<(string, string)> { Pairs(SortStrings(labels.order), labels) }

  function BucketSamples(name: string, labels: Labels, buckets: seq<real>, counts: seq<nat>, fmt: Format)
    : seq<Sample>
  {
    if buckets == [] || counts == [] then []
    else
      [Sample(name + "_bucket", SortedPairs(JsMap.Set(labels, "le", fmt(Finite(buckets[0])))),
              fmt(Finite(counts[0] as real)))]
      + BucketSamples(name, labels, buckets[1..], counts[1..], fmt)
  }

  function TailSamples(name: string, labels: Labels, h: Hist, fmt: Format): seq<Sample> {
    [Sample(name + "_bucket", SortedPairs(JsMap.Set(labels, "le", "+Inf")), fmt(Finite(h.n as real))),
     Sample(name + "_sum", SortedPairs(labels), fmt(Finite(h.sum))),
     Sample(name + "_count", SortedPairs(labels), fmt(Finite(h.n as real)))]
  }

  function SeriesSamples(m: Snapshot, k: string, fmt: Format): seq<Sample> {
    var labels := LabelsOf(m.data, k);
    match m.data
    case CounterData(c) =>
      if k !in c.values.entries then []
      else [Sample(m.name, SortedPairs(labels), fmt(Finite(c.values.entries[k])))]
    case GaugeData(g) =>
      if k !in g.values.entries then []
      else [Sample(m.name, SortedPairs(labels), fmt(g.values.entries[k]))]
    case HistogramData(buckets, hs) =>
      if k !in hs.values.entries then []
      else
        var h := hs.values.entries[k];
        BucketSamples(m.name, labels, buckets, h.counts, fmt) + TailSamples(m.name, labels, h, fmt)
  }

  function SamplesFor(m: Snapshot, keys: seq<string>, fmt: Format): seq<Sample>
  {
    if keys == [] then []
    else SeriesSamples(m, keys[0], fmt) + SamplesFor(m, keys[1..], fmt)
  }

  function FamilyOf(m: Snapshot, fmt: Format): Family {
    Family(m.name, m.help, Kind(m.data), SamplesFor(m, Keys(m.data), fmt))
  }

  /** Metrics without series are not printed at all. */
  function DocOf(ms: seq<Snapshot>, fmt: Format): seq<Family> {
    if ms == [] then []
    else (if Keys(ms[0].data) == [] then [] else [FamilyOf(ms[0], fmt)]) + DocOf(ms[1..], fmt)
  }

  function RenderText(ms: seq<Snapshot>, fmt: Format): string { PrintDoc(DocOf(ms, fmt)) }

  // ---------------------------------------------------------------- reading a scrape back

  ghost predicate PrintableLabels(labels: Labels) {
    forall n :: n in labels.order ==> LabelName(n)
  }

  /** Legal metric and label names; label values may hold anything. */
  ghost predicate PrintableSnapshot(m: Snapshot) {
    && MetricName(m.name) && '\n' !in m.help
    && forall k :: k in StoredLabels(m.data).entries ==> PrintableLabels(StoredLabels(m.data).entries[k])
  }

  ghost predicate OneLine(fmt: Format) { forall n :: '\n' !in fmt(n) }

  lemma {:induction false} PairsPrintable(names: seq<string>, labels: Labels)
    requires forall n :: n in names ==> LabelName(n)
    ensures forall i :: 0 <= i < |Pairs(names, labels)| ==> LabelName(Pairs(names, labels)[i].0)
  {
    if names != [] {
      assert names[0] in names;
      PairsPrintable(names[1..], labels);
    }
  }

  lemma SamplePrintable(name: string, suffix: string, labels: Labels, value: string)
    requires MetricName(name) && suffix in {"", "_bucket", "_sum", "_count"}
    requires PrintableLabels(labels) && '\n' !in value
    ensures PrintableSample(Sample(name + suffix, SortedPairs(labels), value))
  {
    Sorting.SortMembers(labels.order, LexLe);
    PairsPrintable(SortStrings(labels.order), labels);
  }

  ghost predicate PrintableSamples(samples: seq<Sample>) {
    forall i :: 0 <= i < |samples| ==> PrintableSample(samples[i])
  }

  lemma {:induction false} BucketsPrintable(name: string, labels: Labels, buckets: seq<real>, counts: seq<nat>,
                                            fmt: Format)
    requires MetricName(name) && PrintableLabels(labels) && OneLine(fmt)
    ensures PrintableSamples(BucketSamples(name, labels, buckets, counts, fmt))
  {
    if buckets != [] && counts != [] {
      SamplePrintable(name, "_bucket", JsMap.Set(labels, "le", fmt(Finite(buckets[0]))),
                      fmt(Finite(counts[0] as real)));
      BucketsPrintable(name, labels, buckets[1..], counts[1..], fmt);
    }
  }

  lemma HistogramPrintable(name: string, labels: Labels, buckets: seq<real>, h: Hist, fmt: Format)
    requires MetricName(name) && PrintableLabels(labels) && OneLine(fmt)
    ensures PrintableSamples(BucketSamples(name, labels, buckets, h.counts, fmt) + TailSamples(name, labels, h, fmt))
  {
    hide BucketSamples, PrintableSample, SortedPairs;
    BucketsPrintable(name, labels, buckets, h.counts, fmt);
    SamplePrintable(name, "_bucket", JsMap.Set(labels, "le", "+Inf"), fmt(Finite(h.n as real)));
    SamplePrintable(name, "_sum", labels, fmt(Finite(h.sum)));
    SamplePrintable(name, "_count", labels, fmt(Finite(h.n as real)));
  }

  lemma PlainPrintable(name: string, labels: Labels, value: string)
    requires MetricName(name) && PrintableLabels(labels) && '\n' !in value
    ensures PrintableSamples([Sample(name, SortedPairs(labels), value)])
  {
    SamplePrintable(name, "", labels, value);
    assert name + "" == name;
  }

  lemma SeriesPrintable(m: Snapshot, k: string, fmt: Format)
    requires PrintableSnapshot(m) && OneLine(fmt)
    ensures PrintableSamples(SeriesSamples(m, k, fmt))
  {
    var labels := LabelsOf(m.data, k);
    assert PrintableLabels(labels);
    match m.data
    case CounterData(c) =>
      if k in c.values.entries { PlainPrintable(m.name, labels, fmt(Finite(c.values.entries[k]))); }
    case GaugeData(g) =>
      if k in g.values.entries { PlainPrintable(m.name, labels, fmt(g.values.entries[k])); }
    case HistogramData(buckets, hs) =>
      if k in hs.values.entries {
        HistogramPrintable(m.name, labels, buckets, hs.values.entries[k], fmt);
      }
  }

  lemma {:induction false} SamplesForPrintable(m: Snapshot, keys: seq<string>, fmt: Format)
    requires PrintableSnapshot(m) && OneLine(fmt)
    ensures PrintableSamples(SamplesFor(m, keys, fmt))
  {
    if keys != [] {
      SeriesPrintable(m, keys[0], fmt);
      SamplesForPrintable(m, keys[1..], fmt);
    }
  }

  lemma {:induction false} DocPrintable(ms: seq<Snapshot>, fmt: Format)
    requires OneLine(fmt)
    requires forall i :: 0 <= i < |ms| ==> PrintableSnapshot(ms[i])
    ensures PrintableDoc(DocOf(ms, fmt))
  {
    hide SamplesFor, PrintableSample;
    if ms != [] {
      SamplesForPrintable(ms[0], Keys(ms[0].data), fmt);
      assert Kind(ms[0].data) in {"counter", "gauge", "histogram"};
      assert '\n' !in "counter" && '\n' !in "gauge" && '\n' !in "histogram";
      DocPrintable(ms[1..], fmt);
    }
  }

  /**
   A scrape loses nothing: reading the rendered text gives every non-empty family in
   registration order, with its name, help, type and series, exact label values and
   value tokens.
   */
  lemma RenderReadsBack(ms: seq<Snapshot>, fmt: Format)
    requires OneLine(fmt)
    requires forall i :: 0 <= i < |ms| ==> PrintableSnapshot(ms[i])
    ensures ReadDoc(RenderText(ms, fmt)) == Some(DocOf(ms, fmt))
  {
    DocPrintable(ms, fmt);
    ReadPrintedDoc(DocOf(ms, fmt));
  }

  /** The sorted pairs of a sample are the labels object, no more and no less, by name and each name once. */
  lemma SortedPairsAreLabels(labels: Labels)
    ensures forall p :: p in SortedPairs(labels) <==> p.0 in labels.entries && labels.entries[p.0] == p.1
    ensures forall i, j :: 0 <= i < j < |SortedPairs(labels)| ==>
              LexLe(SortedPairs(labels)[i].0, SortedPairs(labels)[j].0)
              && SortedPairs(labels)[i].0 != SortedPairs(labels)[j].0
  {
    var names := SortStrings(labels.order);
    Sorting.SortMembers(labels.order, LexLe);
    LexIsOrder();
    Sorting.SortSorted(labels.order, LexLe);
    Sorting.NoDupByMultiset(labels.order, names);
    PairsMembers(names, labels);
    PairsNames(names, labels);
  }

  lemma {:induction false} PairsNames(names: seq<string>, labels: Labels)
    ensures |Pairs(names, labels)| == |names|
    ensures forall i :: 0 <= i < |names| ==> Pairs(names, labels)[i].0 == names[i]
  {
    if names != [] { PairsNames(names[1..], labels); }
  }

  lemma {:induction false} PairsMembers(names: seq<string>, labels: Labels)
    ensures forall p :: p in Pairs(names, labels) <==> p.0 in names && LabelValue(labels, p.0) == p.1
  {
    if names != [] {
      PairsMembers(names[1..], labels);
      assert names == [names[0]] + names[1..];
    }
  }

  // ---------------------------------------------------------------- metric objects

  /** `String(help).replace(/\n/g, ' ')`. */
  function OneLineHelp(help: string): (r: string)
    ensures '\n' !in r
    ensures |r| == |help| && forall i :: 0 <= i < |help| ==> r[i] == if help[i] == '\n' then ' ' else help[i]
  {
    HelpHasNoNewline(help);
    ReplaceAll(help, '\n', " ")
  }

  lemma {:induction false} HelpHasNoNewline(help: string)
    ensures '\n' !in ReplaceAll(help, '\n', " ")
    ensures |ReplaceAll(help, '\n', " ")| == |help|
    ensures forall i :: 0 <= i < |help| ==>
              ReplaceAll(help, '\n', " ")[i] == if help[i] == '\n' then ' ' else help[i]
  {
    if help != [] { HelpHasNoNewline(help[1..]); }
  }

  class Counter {
    const name: string
    const help: string
    const labelNames: seq<string>
    var series: JsMap.Map<string, real>
    var seriesLabels: JsMap.Map<string, Labels>

    constructor (fullName: string, helpText: string, names: seq<string>)
      ensures name == fullName && help == OneLineHelp(helpText) && labelNames == names
      ensures State() == NoSeries()
    {
      name := fullName;
      help := OneLineHelp(helpText);
      labelNames := names;
      series := JsMap.Empty();
      seriesLabels := JsMap.Empty();
    }

    function State(): Series<real> reads this { Series(series, seriesLabels) }

    method Inc(labels: LabelArg, value: Option<Num>)
      modifies this
      ensures State() == CounterInc(labelNames, old(State()), Call(labels, value))
    {
      hide SeriesKey, Write;
      var (ls, v) := Unpack(labelNames, labels, Some(OrOne(value)));
      if !v.value.Finite? || v.value.v < 0.0 { return; }
      var k := SeriesKey(labelNames, ls);
      var before := if k in series.entries then series.entries[k] else 0.0;
      Put(k, ls, before + v.value.v);
    }

    method Put(k: string, ls: Labels, v: real)
      modifies this
      ensures State() == Write(old(State()), k, ls, v)
    {
      seriesLabels := JsMap.Set(seriesLabels, k, ls);
      series := JsMap.Set(series, k, v);
    }

    method Value(labels: LabelArg) returns (v: real)
      ensures v == CounterValue(labelNames, State(), labels)
    {
      var k := SeriesKey(labelNames, AsLabels(labels));
      v := if k in series.entries then series.entries[k] else 0.0;
    }

    method Reset()
      modifies this
      ensures State() == NoSeries()
    {
      series := JsMap.Empty();
      seriesLabels := JsMap.Empty();
    }
  }

  class Gauge {
    const name: string
    const help: string
    const labelNames: seq<string>
    var series: JsMap.Map<string, Num>
    var seriesLabels: JsMap.Map<string, Labels>

    constructor (fullName: string, helpText: string, names: seq<string>)
      ensures name == fullName && help == OneLineHelp(helpText) && labelNames == names
      ensures State() == NoSeries()
    {
      name := fullName;
      help := OneLineHelp(helpText);
      labelNames := names;
      series := JsMap.Empty();
      seriesLabels := JsMap.Empty();
    }

    function State(): Series<Num> reads this { Series(series, seriesLabels) }

    method Set(labels: LabelArg, value: Option<Num>)
      modifies this
      ensures State() == GaugeSet(labelNames, old(State()), Call(labels, value))
    {
      var (ls, v) := Unpack(labelNames, labels, value);
      if v.None? || !v.value.Finite? { return; }
      var k := SeriesKey(labelNames, ls);
      seriesLabels := JsMap.Set(seriesLabels, k, ls);
      series := JsMap.Set(series, k, v.value);
    }

    method Inc(labels: LabelArg, value: Option<Num>)
      modifies this
      ensures State() == GaugeInc(labelNames, old(State()), Call(labels, value))
    {
      var (ls, v) := Unpack(labelNames, labels, Some(OrOne(value)));
      var k := SeriesKey(labelNames, ls);
      seriesLabels := JsMap.Set(seriesLabels, k, ls);
      var before := OrZero(if k in series.entries then Some(series.entries[k]) else None);
      series := JsMap.Set(series, k, Add(before, v.value));
    }

    method Dec(labels: LabelArg, value: Option<Num>)
      modifies this
      ensures State() == GaugeDec(labelNames, old(State()), Call(labels, value))
    {
      Inc(labels, Some(Neg(OrOne(value))));
    }

    method Value(labels: LabelArg) returns (v: Num)
      ensures v == GaugeValue(labelNames, State(), labels)
    {
      var k := SeriesKey(labelNames, AsLabels(labels));
      v := OrZero(if k in series.entries then Some(series.entries[k]) else None);
    }
  }

  class Histogram {
    const name: string
    const help: string
    const labelNames: seq<string>
    const buckets: seq<real>
    var series: JsMap.Map<string, Hist>
    var seriesLabels: JsMap.Map<string, Labels>

    /** Every record has one count per bucket. */
    ghost predicate Valid() reads this {
      forall k :: k in series.entries ==> |series.entries[k].counts| == |buckets|
    }

    constructor (fullName: string, helpText: string, names: seq<string>, declared: seq<real>)
      ensures Valid()
      ensures name == fullName && help == OneLineHelp(helpText) && labelNames == names
      ensures buckets == SortReals(declared)
      ensures State() == NoSeries()
    {
      name := fullName;
      help := OneLineHelp(helpText);
      labelNames := names;
      buckets := SortReals(declared);
      series := JsMap.Empty();
      seriesLabels := JsMap.Empty();
    }

    function State(): Series<Hist> reads this { Series(series, seriesLabels) }

    method Observe(labels: LabelArg, value: Option<Num>)
      requires Valid()
      modifies this
      ensures Valid()
      ensures State() == HistObserve(labelNames, buckets, old(State()), Call(labels, value))
    {
      hide SeriesKey, Bump, EmptyHist, Write;
      var (ls, v) := Unpack(labelNames, labels, value);
      if v.None? || !v.value.Finite? { return; }
      var k := SeriesKey(labelNames, ls);
      assert |EmptyHist(buckets).counts| == |buckets| by { EmptyHistSize(buckets); }
      var h := if k in series.entries then series.entries[k] else EmptyHist(buckets);
      var counts := CountInto(h, v.value.v);
      Put(k, ls, Hist(counts, h.sum + v.value.v, h.n + 1));
    }

    method Put(k: string, ls: Labels, h: Hist)
      requires Valid() && |h.counts| == |buckets|
      modifies this
      ensures Valid()
      ensures State() == Write(old(State()), k, ls, h)
    {
      seriesLabels := JsMap.Set(seriesLabels, k, ls);
      series := JsMap.Set(series, k, h);
    }

    /** The bucket loop of `observe`: every bucket at or above the value counts it. */
    method CountInto(h: Hist, v: real) returns (counts: seq<nat>)
      requires |h.counts| == |buckets|
      ensures |counts| == |buckets| && Hist(counts, h.sum + v, h.n + 1) == Bump(h, buckets, v)
    {
      counts := h.counts;
      var i := 0;
      while i < |buckets|
        invariant 0 <= i <= |buckets| == |counts|
        invariant forall j :: 0 <= j < i ==> counts[j] == if v <= buckets[j] then h.counts[j] + 1 else h.counts[j]
        invariant forall j :: i <= j < |buckets| ==> counts[j] == h.counts[j]
      {
        if v <= buckets[i] { counts := counts[i := counts[i] + 1]; }
        i := i + 1;
      }
    }

    method Value(labels: LabelArg) returns (h: Option<Hist>)
      ensures h == Stored(State(), SeriesKey(labelNames, AsLabels(labels)))
    {
      var k := SeriesKey(labelNames, AsLabels(labels));
      h := if k in series.entries then Some(series.entries[k]) else None;
    }
  }

  lemma EmptyHistSize(buckets: seq<real>)
    ensures |EmptyHist(buckets).counts| == |buckets|
  {
  }

  // ---------------------------------------------------------------- the registry

  datatype Metric = CounterMetric(c: Counter) | GaugeMetric(g: Gauge) | HistogramMetric(h: Histogram)

  datatype MetricKind = CounterKind | GaugeKind | HistogramKind

  ghost predicate Owns(repr: set<object>, m: Metric, full: string)
    reads repr
  {
    match m
    case CounterMetric(c) => c in repr && c.name == full
    case GaugeMetric(g) => g in repr && g.name == full
    case HistogramMetric(h) => h in repr && h.Valid() && h.name == full
  }

  function ObjectOf(m: Metric): object {
    match m
    case CounterMetric(c) => c
    case GaugeMetric(g) => g
    case HistogramMetric(h) => h
  }

  /** The metric is of the requested kind, as it was declared, and has no series yet. */
  ghost predicate Declared(m: Metric, kind: MetricKind, full: string, help: string, labelNames: seq<string>,
                           buckets: seq<real>)
    reads ObjectOf(m)
  {
    match m
    case CounterMetric(c) =>
      && kind == CounterKind && c.name == full && c.help == OneLineHelp(help) && c.labelNames == labelNames
      && c.State() == NoSeries()
    case GaugeMetric(g) =>
      && kind == GaugeKind && g.name == full && g.help == OneLineHelp(help) && g.labelNames == labelNames
      && g.State() == NoSeries()
    case HistogramMetric(h) =>
      && kind == HistogramKind && h.name == full && h.help == OneLineHelp(help) && h.labelNames == labelNames
      && h.buckets == SortReals(buckets) && h.State() == NoSeries()
  }

  method Create(kind: MetricKind, full: string, help: string, labelNames: seq<string>, buckets: seq<real>)
    returns (m: Metric, ghost added: set<object>)
    ensures fresh(added) && Owns(added, m, full)
    ensures Declared(m, kind, full, help, labelNames, buckets)
  {
    match kind {
      case CounterKind =>
        var c := new Counter(full, help, labelNames);
        m, added := CounterMetric(c), {c};
      case GaugeKind =>
        var g := new Gauge(full, help, labelNames);
        m, added := GaugeMetric(g), {g};
      case HistogramKind =>
        var h := new Histogram(full, help, labelNames, buckets);
        m, added := HistogramMetric(h), {h};
    }
  }

  method BucketLines(full: string, labels: Labels, buckets: seq<real>, h: Hist, fmt: Format)
    returns (lines: seq<string>)
    requires |h.counts| == |buckets|
    ensures lines == PrintSamples(BucketSamples(full, labels, buckets, h.counts, fmt))
  {
    hide PrintLabels, SortedPairs;
    lines := [];
    var i := 0;
    while i < |buckets|
      invariant 0 <= i <= |buckets|
      invariant PrintSamples(BucketSamples(full, labels, buckets, h.counts, fmt))
             == lines + PrintSamples(BucketSamples(full, labels, buckets[i..], h.counts[i..], fmt))
    {
      var le := JsMap.Set(labels, "le", fmt(Finite(buckets[i])));
      var line := full + "_bucket" + PrintLabels(SortedPairs(le)) + " " + fmt(Finite(h.counts[i] as real));
      BucketStep(full, labels, buckets, h.counts, i, fmt);
      lines := lines + [line];
      i := i + 1;
    }
  }

  lemma BucketStep(full: string, labels: Labels, buckets: seq<real>, counts: seq<nat>, i: nat, fmt: Format)
    requires i < |buckets| == |counts|
    ensures PrintSamples(BucketSamples(full, labels, buckets[i..], counts[i..], fmt))
         == [full + "_bucket" + PrintLabels(SortedPairs(JsMap.Set(labels, "le", fmt(Finite(buckets[i]))))) + " "
             + fmt(Finite(counts[i] as real))]
            + PrintSamples(BucketSamples(full, labels, buckets[i + 1..], counts[i + 1..], fmt))
  {
    assert buckets[i..][1..] == buckets[i + 1..] && counts[i..][1..] == counts[i + 1..];
    var s := Sample(full + "_bucket", SortedPairs(JsMap.Set(labels, "le", fmt(Finite(buckets[i])))),
                    fmt(Finite(counts[i] as real)));
    PrintSamplesConcat([s], BucketSamples(full, labels, buckets[i + 1..], counts[i + 1..], fmt));
    assert [s][1..] == [];
    assert PrintSamples([s]) == [PrintSample(s)];
  }

  lemma PrintTail(full: string, labels: Labels, h: Hist, fmt: Format)
    ensures PrintSamples(TailSamples(full, labels, h, fmt))
         == [full + "_bucket" + PrintLabels(SortedPairs(JsMap.Set(labels, "le", "+Inf")))
             + " " + fmt(Finite(h.n as real)),
             full + "_sum" + PrintLabels(SortedPairs(labels)) + " " + fmt(Finite(h.sum)),
             full + "_count" + PrintLabels(SortedPairs(labels)) + " " + fmt(Finite(h.n as real))]
  {
    hide PrintLabels, SortedPairs;
    var t := TailSamples(full, labels, h, fmt);
    assert PrintSamples(t[1..][1..]) == [PrintSample(t[2])];
  }

  class Registry {
    const prefix: string
    var metrics: map<string, Metric>
    var order: seq<string>
    ghost var Repr: set<object>

    ghost predicate Valid()
      reads this, Repr
    {
      && this in Repr
      && Sorting.NoDup(order)
      && (forall full :: full in order <==> full in metrics)
      && (forall full :: full in metrics ==> Owns(Repr, metrics[full], full))
    }

    constructor (p: string)
      ensures Valid() && fresh(Repr) && prefix == p && order == [] && metrics == map[]
    {
      prefix := p;
      metrics := map[];
      order := [];
      Repr := {this};
    }

    /** `_get`: the first registration of a name decides its object; later ones return it unchanged. */
    method Get(kind: MetricKind, name: string, help: string, labelNames: seq<string>, buckets: seq<real>)
      returns (m: Metric)
      requires Valid()
      modifies this
      ensures Valid() && fresh(Repr - old(Repr))
      ensures var full := prefix + "_" + name;
              && full in metrics && m == metrics[full]
              && (full in old(metrics) ==> metrics == old(metrics) && order == old(order))
              && (full !in old(metrics) ==>
                    && order == old(order) + [full] && metrics == old(metrics)[full := m]
                    && fresh(ObjectOf(m)) && Declared(m, kind, full, help, labelNames, buckets))
    {
      var full := prefix + "_" + name;
      if full !in metrics {
        ghost var added;
        m, added := Create(kind, full, help, labelNames, buckets);
        Repr := Repr + added;
        metrics := metrics[full := m];
        order := order + [full];
      }
      m := metrics[full];
    }

    function SnapshotOf(full: string): Snapshot
      requires Valid() && full in metrics
      reads this, Repr
    {
      match metrics[full]
      case CounterMetric(c) => Snapshot(full, c.help, CounterData(c.State()))
      case GaugeMetric(g) => Snapshot(full, g.help, GaugeData(g.State()))
      case HistogramMetric(h) => Snapshot(full, h.help, HistogramData(h.buckets, h.State()))
    }

    /** The metric's own name, help and series, under its own kind. */
    ghost predicate Shows(m: Metric, s: Snapshot)
      reads ObjectOf(m)
    {
      match m
      case CounterMetric(c) => s.name == c.name && s.help == c.help && s.data == CounterData(c.State())
      case GaugeMetric(g) => s.name == g.name && s.help == g.help && s.data == GaugeData(g.State())
      case HistogramMetric(h) => s.name == h.name && s.help == h.help && s.data == HistogramData(h.buckets, h.State())
    }

    function Snapshots(names: seq<string>): seq<Snapshot>
      requires Valid() && forall full :: full in names ==> full in metrics
      reads this, Repr
    {
      if names == [] then [] else [SnapshotOf(names[0])] + Snapshots(names[1..])
    }

    /** `render`: every registered metric with at least one series, in registration order. */
    method Render(fmt: Format) returns (text: string)
      requires Valid()
      ensures text == RenderText(Snapshots(order), fmt)
      ensures |Snapshots(order)| == |order|
      ensures forall i :: 0 <= i < |order| ==>
                order[i] in metrics && Shows(metrics[order[i]], Snapshots(order)[i])
    {
      SnapshotsWellFormed(order);
      SnapshotsShow(order);
      text := RenderAll(Snapshots(order), fmt);
    }

    lemma {:induction false} SnapshotsWellFormed(names: seq<string>)
      requires Valid() && forall full :: full in names ==> full in metrics
      ensures forall i :: 0 <= i < |Snapshots(names)| ==> WellFormed(Snapshots(names)[i])
    {
      if names != [] {
        SnapshotWellFormed(names[0]);
        SnapshotsWellFormed(names[1..]);
      }
    }

    lemma {:induction false} SnapshotsShow(names: seq<string>)
      requires Valid() && forall full :: full in names ==> full in metrics
      ensures |Snapshots(names)| == |names|
      ensures forall i :: 0 <= i < |names| ==> Shows(metrics[names[i]], Snapshots(names)[i])
    {
      if names != [] {
        assert names[0] in names && Owns(Repr, metrics[names[0]], names[0]);
        SnapshotsShow(names[1..]);
      }
    }

    lemma SnapshotWellFormed(full: string)
      requires Valid() && full in metrics
      ensures WellFormed(SnapshotOf(full))
    {
      assert Owns(Repr, metrics[full], full);
    }
  }

  /** A histogram series has one count per bucket. */
  ghost predicate WellFormed(m: Snapshot) {
    m.data.HistogramData? ==>
      forall k :: k in m.data.h.values.entries ==> |m.data.h.values.entries[k].counts| == |m.data.buckets|
  }

  method RenderAll(ms: seq<Snapshot>, fmt: Format) returns (text: string)
    requires forall i :: 0 <= i < |ms| ==> WellFormed(ms[i])
    ensures text == RenderText(ms, fmt)
  {
    var out := [];
    var i := 0;
    while i < |ms|
      invariant 0 <= i <= |ms|
      invariant AllLines(ms, fmt) == out + AllLines(ms[i..], fmt)
    {
      var lines := FamilyText(ms[i], fmt);
      AllLinesStep(ms, i, out, lines, fmt);
      out := out + lines;
      i := i + 1;
    }
    AllLinesIsDoc(ms, fmt);
    assert AllLines([], fmt) == [] && out + [] == out;
    text := Join(out, "\n") + "\n";
  }

  /** The lines of one family, none when it has no series. */
  method FamilyText(m: Snapshot, fmt: Format) returns (out: seq<string>)
    requires WellFormed(m)
    ensures out == LinesOf(m, fmt)
  {
    var keys := Keys(m.data);
    if |keys| == 0 { return []; }
    out := ["# HELP " + m.name + " " + m.help];
    out := out + ["# TYPE " + m.name + " " + Kind(m.data)];
    var body := AllSeriesLines(m, keys, fmt);
    out := out + body;
    SeriesTextIsSamples(m, keys, fmt);
  }

  method AllSeriesLines(m: Snapshot, keys: seq<string>, fmt: Format) returns (out: seq<string>)
    requires WellFormed(m)
    requires keys == Keys(m.data)
    ensures out == SeriesText(m, keys, fmt)
  {
    out := [];
    var j := 0;
    while j < |keys|
      invariant 0 <= j <= |keys|
      invariant SeriesText(m, keys, fmt) == out + SeriesText(m, keys[j..], fmt)
    {
      var lines := SeriesLines(m, keys[j], fmt);
      SeriesStep(m, keys, j, out, lines, fmt);
      out := out + lines;
      j := j + 1;
    }
  }

  /** The lines of one series; for a histogram a cumulative line per bucket, then `+Inf`, sum and count. */
  method SeriesLines(m: Snapshot, k: string, fmt: Format) returns (lines: seq<string>)
    requires WellFormed(m)
    requires k in Keys(m.data)
    ensures lines == PrintSamples(SeriesSamples(m, k, fmt))
  {
    var labels := LabelsOf(m.data, k);
    match m.data {
      case CounterData(c) =>
        lines := [m.name + PrintLabels(SortedPairs(labels)) + " " + fmt(Finite(c.values.entries[k]))];
      case GaugeData(g) =>
        lines := [m.name + PrintLabels(SortedPairs(labels)) + " " + fmt(g.values.entries[k])];
      case HistogramData(buckets, hs) =>
        var v := hs.values.entries[k];
        lines := BucketLines(m.name, labels, buckets, v, fmt);
        PrintSamplesConcat(BucketSamples(m.name, labels, buckets, v.counts, fmt),
                           TailSamples(m.name, labels, v, fmt));
        var inf := JsMap.Set(labels, "le", "+Inf");
        PrintTail(m.name, labels, v, fmt);
        lines := lines
          + [m.name + "_bucket" + PrintLabels(SortedPairs(inf)) + " " + fmt(Finite(v.n as real)),
             m.name + "_sum" + PrintLabels(SortedPairs(labels)) + " " + fmt(Finite(v.sum)),
             m.name + "_count" + PrintLabels(SortedPairs(labels)) + " " + fmt(Finite(v.n as real))];
    }
  }

  // The text again, cut the way the loops build it.

  function LinesOf(m: Snapshot, fmt: Format): seq<string> {
    if Keys(m.data) == [] then [] else FamilyLines(FamilyOf(m, fmt))
  }

  function AllLines(ms: seq<Snapshot>, fmt: Format): seq<string> {
    if ms == [] then [] else LinesOf(ms[0], fmt) + AllLines(ms[1..], fmt)
  }

  function SeriesText(m: Snapshot, keys: seq<string>, fmt: Format): seq<string>
  {
    if keys == [] then []
    else PrintSamples(SeriesSamples(m, keys[0], fmt)) + SeriesText(m, keys[1..], fmt)
  }

  lemma AllLinesStep(ms: seq<Snapshot>, i: nat, out: seq<string>, lines: seq<string>, fmt: Format)
    requires i < |ms| && lines == LinesOf(ms[i], fmt)
    ensures out + AllLines(ms[i..], fmt) == (out + lines) + AllLines(ms[i + 1..], fmt)
  {
    hide LinesOf;
    assert ms[i..][0] == ms[i] && ms[i..][1..] == ms[i + 1..];
    assert AllLines(ms[i..], fmt) == lines + AllLines(ms[i + 1..], fmt);
  }

  lemma SeriesStep(m: Snapshot, keys: seq<string>, j: nat, body: seq<string>, lines: seq<string>, fmt: Format)
    requires j < |keys|
    requires lines == PrintSamples(SeriesSamples(m, keys[j], fmt))
    ensures body + SeriesText(m, keys[j..], fmt) == (body + lines) + SeriesText(m, keys[j + 1..], fmt)
  {
    hide SeriesSamples, PrintSamples;
    assert keys[j..][0] == keys[j] && keys[j..][1..] == keys[j + 1..];
    assert SeriesText(m, keys[j..], fmt) == lines + SeriesText(m, keys[j + 1..], fmt);
  }

  lemma {:induction false} SeriesTextIsSamples(m: Snapshot, keys: seq<string>, fmt: Format)
    ensures SeriesText(m, keys, fmt) == PrintSamples(SamplesFor(m, keys, fmt))
  {
    if keys != [] {
      SeriesTextIsSamples(m, keys[1..], fmt);
      PrintSamplesConcat(SeriesSamples(m, keys[0], fmt), SamplesFor(m, keys[1..], fmt));
    }
  }

  lemma {:induction false} AllLinesIsDoc(ms: seq<Snapshot>, fmt: Format)
    ensures AllLines(ms, fmt) == DocLines(DocOf(ms, fmt))
  {
    if ms != [] {
      AllLinesIsDoc(ms[1..], fmt);
      var more := DocOf(ms[1..], fmt);
      if Keys(ms[0].data) != [] {
        var f := FamilyOf(ms[0], fmt);
        assert DocOf(ms, fmt) == [f] + more;
        assert ([f] + more)[1..] == more;
      } else {
        assert DocOf(ms, fmt) == more;
      }
    }
  }

  lemma {:induction false} PrintSamplesConcat(a: seq<Sample>, b: seq<Sample>)
    ensures PrintSamples(a + b) == PrintSamples(a) + PrintSamples(b)
  {
    if a == [] {
      assert a + b == b;
    } else {
      assert (a + b)[1..] == a[1..] + b;
      PrintSamplesConcat(a[1..], b);
    }
  }
}
