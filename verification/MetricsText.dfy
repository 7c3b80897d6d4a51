/**
 The Prometheus text exposition format 0.0.4 as `Registry.render` writes it
 (backend/src/observability/metrics.js), and a reader for it.
 */
module MetricsText {
  import opened Wrappers
  import opened JsStrings

  datatype Sample = Sample(name: string, labels: seq<(string, string)>, value: string)

  datatype Family = Family(name: string, help: string, kind: string, samples: seq<Sample>)

  // ---------------------------------------------------------------- printing

  /** Three global replaces, in the order the source chains them. */
  function EscapeLabelValue(v: string): string {
    ReplaceAll(ReplaceAll(ReplaceAll(v, '\\', "\\\\"), '"', "\\\""), '\n', "\\n")
  }

  function PrintPair(p: (string, string)): string {
    p.0 + "=\"" + EscapeLabelValue(p.1) + "\""
  }

  function PrintPairs(pairs: seq<(string, string)>): seq<string> {
    seq(|pairs|, i requires 0 <= i < |pairs| => PrintPair(pairs[i]))
  }

  /** `{a="1",b="2"}`, or nothing when there are no labels. */
  function PrintLabels(pairs: seq<(string, string)>): string {
    if pairs == [] then "" else "{" + Join(PrintPairs(pairs), ",") + "}"
  }

  function PrintSample(s: Sample): string {
    s.name + PrintLabels(s.labels) + " " + s.value
  }

  function PrintSamples(samples: seq<Sample>): seq<string> {
    if samples == [] then [] else [PrintSample(samples[0])] + PrintSamples(samples[1..])
  }

  function FamilyLines(f: Family): seq<string> {
    ["# HELP " + f.name + " " + f.help, "# TYPE " + f.name + " " + f.kind] + PrintSamples(f.samples)
  }

  function DocLines(doc: seq<Family>): seq<string> {
    if doc == [] then [] else FamilyLines(doc[0]) + DocLines(doc[1..])
  }

  function PrintDoc(doc: seq<Family>): string {
    Join(DocLines(doc), "\n") + "\n"
  }

  // ---------------------------------------------------------------- reading

  /** Reads a label value up to its closing quote; returns the value and what follows. */
  function ScanValue(s: string): Option<(string, string)> {
    if s == [] then None
    else if s[0] == '"' then Some(("", s[1..]))
    else if s[0] == '\\' then
      if |s| < 2 then None
      else
        var c := if s[1] == 'n' then '\n' else s[1];
        if s[1] != 'n' && s[1] != '"' && s[1] != '\\' then None
        else
          match ScanValue(s[2..])
          case None => None
          case Some((v, rest)) => Some(([c] + v, rest))
    else
      match ScanValue(s[1..])
      case None => None
      case Some((v, rest)) => Some(([s[0]] + v, rest))
  }

  lemma {:induction false} ScanShrinks(s: string)
    ensures ScanValue(s).Some? ==> |ScanValue(s).value.1| < |s|
  {
    if s != [] && s[0] != '"' {
      if s[0] == '\\' {
        if |s| >= 2 { ScanShrinks(s[2..]); }
      } else {
        ScanShrinks(s[1..]);
      }
    }
  }

  /** Reads `name="value"` pairs up to the closing brace. */
  function ScanPairs(s: string): Option<(seq<(string, string)>, string)>
    decreases |s|
  {
    match IndexOf(s, '=')
    case None => None
    case Some(i) =>
      if i + 1 >= |s| || s[i + 1] != '"' then None
      else
        ScanShrinks(s[i + 2..]);
        match ScanValue(s[i + 2..])
        case None => None
        case Some((v, rest)) =>
          if rest == [] then None
          else if rest[0] == '}' then Some(([(s[..i], v)], rest[1..]))
          else if rest[0] != ',' then None
          else
            match ScanPairs(rest[1..])
            case None => None
            case Some((more, tail)) => Some(([(s[..i], v)] + more, tail))
  }

  function ReadValue(name: string, labels: seq<(string, string)>, s: string): Option<Sample> {
    if s != [] && s[0] == ' ' then Some(Sample(name, labels, s[1..])) else None
  }

  function NameLength(s: string): (n: nat)
    ensures n <= |s|
  {
    if s == [] || s[0] == '{' || s[0] == ' ' then 0 else 1 + NameLength(s[1..])
  }

  function ReadSample(line: string): Option<Sample> {
    var n := NameLength(line);
    if n == |line| then None
    else if line[n] == ' ' then ReadValue(line[..n], [], line[n..])
    else
      match ScanPairs(line[n + 1..])
      case None => None
      case Some((labels, rest)) => ReadValue(line[..n], labels, rest)
  }

  /** `# HELP name text` or `# TYPE name text`, given the seven-character introduction. */
  function ReadComment(line: string, intro: string): Option<(string, string)> {
    if !StartsWith(line, intro) then None
    else
      var body := line[|intro|..];
      match IndexOf(body, ' ')
      case None => None
      case Some(i) => Some((body[..i], body[i + 1..]))
  }

  function SampleCount(lines: seq<string>): (n: nat)
    ensures n <= |lines|
  {
    if lines == [] || lines[0] == "" || lines[0][0] == '#' then 0 else 1 + SampleCount(lines[1..])
  }

  function ReadSamples(lines: seq<string>): Option<seq<Sample>> {
    if lines == [] then Some([])
    else
      match (ReadSample(lines[0]), ReadSamples(lines[1..]))
      case (Some(s), Some(rest)) => Some([s] + rest)
      case _ => None
  }

  function ReadFamilies(lines: seq<string>): Option<seq<Family>>
    decreases |lines|
  {
    if lines == [] then Some([])
    else if lines[0] == "" then ReadFamilies(lines[1..])
    else if |lines| < 2 then None
    else
      match (ReadComment(lines[0], "# HELP "), ReadComment(lines[1], "# TYPE "))
      case (Some((name, help)), Some((name', kind))) =>
        var n := SampleCount(lines[2..]);
        (match (ReadSamples(lines[2..2 + n]), ReadFamilies(lines[2 + n..]))
         case (Some(samples), Some(rest)) =>
           if name == name' then Some([Family(name, help, kind, samples)] + rest) else None
         case _ => None)
      case _ => None
  }

  function ReadDoc(text: string): Option<seq<Family>> {
    ReadFamilies(Split(text, '\n'))
  }

  // ---------------------------------------------------------------- what may be printed

  predicate MetricName(name: string) {
    && name != [] && name[0] != '#'
    && forall i :: 0 <= i < |name| ==> name[i] != '{' && name[i] != ' ' && name[i] != '\n'
  }

  predicate LabelName(name: string) {
    forall i :: 0 <= i < |name| ==> name[i] != '=' && name[i] != '\n'
  }

  predicate PrintableSample(s: Sample) {
    && MetricName(s.name)
    && (forall i :: 0 <= i < |s.labels| ==> LabelName(s.labels[i].0))
    && '\n' !in s.value
  }

  predicate PrintableFamily(f: Family) {
    && MetricName(f.name)
    && '\n' !in f.help && '\n' !in f.kind
    && forall i :: 0 <= i < |f.samples| ==> PrintableSample(f.samples[i])
  }

  predicate PrintableDoc(doc: seq<Family>) {
    forall i :: 0 <= i < |doc| ==> PrintableFamily(doc[i])
  }

  // ---------------------------------------------------------------- escaping

  /** What the three replaces do to one character. */
  function EscapeChar(c: char): string {
    if c == '\\' then "\\\\" else if c == '"' then "\\\"" else if c == '\n' then "\\n" else [c]
  }

  function EscapeEach(v: string): string {
    if v == [] then [] else EscapeChar(v[0]) + EscapeEach(v[1..])
  }

  /** The chained replaces never re-escape each other's output. */
  lemma {:induction false} EscapeIsPerCharacter(v: string)
    ensures EscapeLabelValue(v) == EscapeEach(v)
  {
    if v != [] {
      var a := if v[0] == '\\' then "\\\\" else [v[0]];
      var b := if v[0] == '"' then "\\\"" else a;
      var s1 := ReplaceAll(v[1..], '\\', "\\\\");
      var s2 := ReplaceAll(s1, '"', "\\\"");
      ReplaceAllConcat(a, s1, '"', "\\\"");
      assert ReplaceAll(a, '"', "\\\"") == b by { TwoChars(a, '"', "\\\""); }
      ReplaceAllConcat(b, s2, '\n', "\\n");
      assert ReplaceAll(b, '\n', "\\n") == EscapeChar(v[0]) by { TwoChars(b, '\n', "\\n"); }
      EscapeIsPerCharacter(v[1..]);
    }
  }

  lemma TwoChars(s: string, c: char, into: string)
    requires 1 <= |s| <= 2
    ensures ReplaceAll(s, c, into)
            == (if s[0] == c then into else [s[0]])
               + (if |s| == 1 then [] else if s[1] == c then into else [s[1]])
  {
    if |s| == 2 {
      assert s[1..] == [s[1]];
      assert ReplaceAll(s[1..], c, into) == if s[1] == c then into else [s[1]];
    }
  }

  lemma {:induction false} ScanEscaped(v: string, rest: string)
    ensures ScanValue(EscapeEach(v) + "\"" + rest) == Some((v, rest))
  {
    var s := EscapeEach(v) + "\"" + rest;
    if v == [] {
      assert s[1..] == rest;
    } else {
      var e := EscapeChar(v[0]);
      var tail := EscapeEach(v[1..]) + "\"" + rest;
      assert s == e + tail;
      assert s[|e|..] == tail;
      ScanEscaped(v[1..], rest);
      assert [v[0]] + v[1..] == v;
    }
  }

  lemma {:induction false} EscapedHasNoNewline(v: string)
    ensures '\n' !in EscapeEach(v)
  {
    if v != [] { EscapedHasNoNewline(v[1..]); }
  }

  // ---------------------------------------------------------------- labels and samples

  lemma {:induction false} ScanPrintedPairs(pairs: seq<(string, string)>, rest: string)
    requires pairs != []
    requires forall i :: 0 <= i < |pairs| ==> LabelName(pairs[i].0)
    ensures ScanPairs(Join(PrintPairs(pairs), ",") + "}" + rest) == Some((pairs, rest))
  {
    var (n, v) := pairs[0];
    var text := Join(PrintPairs(pairs), ",") + "}" + rest;
    var after := if |pairs| == 1 then "}" + rest
                 else "," + (Join(PrintPairs(pairs[1..]), ",") + "}" + rest);
    PrintPairsSplit(pairs, rest);
    assert text == n + ['='] + ("\"" + (EscapeEach(v) + "\"" + after));
    assert pairs == [(n, v)] + pairs[1..];
    ScanFirstPair(n, v, after);
    if |pairs| > 1 {
      ScanPrintedPairs(pairs[1..], rest);
      assert after[1..] == Join(PrintPairs(pairs[1..]), ",") + "}" + rest;
      assert ScanPairs(text) == Some(([(n, v)] + pairs[1..], rest));
    } else {
      assert after[1..] == rest;
      assert pairs == [(n, v)];
      assert ScanPairs(text) == Some(([(n, v)], rest));
    }
  }

  lemma PrintPairsSplit(pairs: seq<(string, string)>, rest: string)
    requires pairs != []
    ensures var (n, v) := pairs[0];
            Join(PrintPairs(pairs), ",") + "}" + rest
            == n + ['='] + ("\"" + (EscapeEach(v) + "\""
               + (if |pairs| == 1 then "}" + rest
                  else "," + (Join(PrintPairs(pairs[1..]), ",") + "}" + rest))))
  {
    hide EscapeLabelValue, EscapeEach;
    var (n, v) := pairs[0];
    EscapeIsPerCharacter(v);
    assert PrintPairs(pairs)[0] == n + "=\"" + EscapeEach(v) + "\"";
    assert PrintPairs(pairs)[1..] == PrintPairs(pairs[1..]);
  }

  /** The reader's step over one printed pair, by the character that follows it. */
  lemma ScanFirstPair(n: string, v: string, after: string)
    requires LabelName(n)
    requires after != []
    ensures var s := n + ['='] + ("\"" + (EscapeEach(v) + "\"" + after));
            && (after[0] == '}' ==> ScanPairs(s) == Some(([(n, v)], after[1..])))
            && (after[0] == ',' && ScanPairs(after[1..]).Some? ==>
                  ScanPairs(s) == Some(([(n, v)] + ScanPairs(after[1..]).value.0,
                                        ScanPairs(after[1..]).value.1)))
  {
    var body := EscapeEach(v) + "\"" + after;
    var s := n + ['='] + ("\"" + body);
    IndexOfPiece(n, '=', "\"" + body);
    assert s[..|n|] == n;
    assert s[|n| + 2..] == body;
    ScanEscaped(v, after);
    assert ScanValue(s[|n| + 2..]) == Some((v, after));
  }

  lemma {:induction false} NameLengthOf(name: string, rest: string)
    requires forall i :: 0 <= i < |name| ==> name[i] != '{' && name[i] != ' '
    requires rest != [] && (rest[0] == '{' || rest[0] == ' ')
    ensures NameLength(name + rest) == |name|
  {
    if name == [] {
      assert name + rest == rest;
    } else {
      assert (name + rest)[1..] == name[1..] + rest;
      NameLengthOf(name[1..], rest);
    }
  }

  lemma ReadPrintedSample(s: Sample)
    requires PrintableSample(s)
    ensures ReadSample(PrintSample(s)) == Some(s)
  {
    hide PrintPairs, Join, ScanPairs;
    var line := PrintSample(s);
    var tail := " " + s.value;
    assert tail[1..] == s.value;
    if s.labels == [] {
      assert line == s.name + tail;
      NameLengthOf(s.name, tail);
      assert line[..|s.name|] == s.name && line[|s.name|..] == tail;
    } else {
      var inner := Join(PrintPairs(s.labels), ",") + "}" + tail;
      assert line == s.name + ("{" + inner);
      NameLengthOf(s.name, "{" + inner);
      assert line[..|s.name|] == s.name && line[|s.name| + 1..] == inner;
      ScanPrintedPairs(s.labels, tail);
    }
  }

  lemma {:induction false} JoinHasNoNewline(parts: seq<string>)
    requires forall i :: 0 <= i < |parts| ==> '\n' !in parts[i]
    ensures '\n' !in Join(parts, ",")
  {
    if |parts| > 1 { JoinHasNoNewline(parts[1..]); }
  }

  lemma SampleIsOneLine(s: Sample)
    requires PrintableSample(s)
    ensures '\n' !in PrintSample(s) && PrintSample(s) != "" && PrintSample(s)[0] != '#'
  {
    forall i | 0 <= i < |s.labels| ensures '\n' !in PrintPairs(s.labels)[i] {
      EscapeIsPerCharacter(s.labels[i].1);
      EscapedHasNoNewline(s.labels[i].1);
      assert LabelName(s.labels[i].0);
    }
    JoinHasNoNewline(PrintPairs(s.labels));
  }

  lemma {:induction false} ReadPrintedSamples(samples: seq<Sample>)
    requires forall i :: 0 <= i < |samples| ==> PrintableSample(samples[i])
    ensures ReadSamples(PrintSamples(samples)) == Some(samples)
    ensures |PrintSamples(samples)| == |samples|
  {
    if samples != [] {
      assert PrintableSample(samples[0]);
      ReadPrintedSample(samples[0]);
      ReadPrintedSamples(samples[1..]);
      assert samples == [samples[0]] + samples[1..];
    }
  }

  lemma {:induction false} SampleCountOf(samples: seq<Sample>, rest: seq<string>)
    requires forall i :: 0 <= i < |samples| ==> PrintableSample(samples[i])
    requires rest == [] || rest[0] == "" || rest[0][0] == '#'
    ensures SampleCount(PrintSamples(samples) + rest) == |samples|
  {
    hide PrintSample, PrintableSample;
    if samples == [] {
      assert PrintSamples(samples) + rest == rest;
    } else {
      assert PrintableSample(samples[0]);
      SampleIsOneLine(samples[0]);
      var lines := PrintSamples(samples) + rest;
      assert lines == [PrintSample(samples[0])] + (PrintSamples(samples[1..]) + rest);
      SampleCountOf(samples[1..], rest);
      SampleCountStep(PrintSample(samples[0]), PrintSamples(samples[1..]) + rest);
    }
  }

  lemma SampleCountStep(line: string, rest: seq<string>)
    requires line != "" && line[0] != '#'
    ensures SampleCount([line] + rest) == 1 + SampleCount(rest)
  {
    assert ([line] + rest)[1..] == rest;
  }

  // ---------------------------------------------------------------- families

  lemma ReadPrintedComment(intro: string, name: string, text: string)
    requires MetricName(name)
    ensures ReadComment(intro + name + " " + text, intro) == Some((name, text))
  {
    var line := intro + name + " " + text;
    assert line[..|intro|] == intro;
    assert line[|intro|..] == name + [' '] + text;
    IndexOfPiece(name, ' ', text);
    assert (name + [' '] + text)[..|name|] == name;
    assert (name + [' '] + text)[|name| + 1..] == text;
  }

  /** One family in front of lines that start no further sample of it. */
  lemma ReadPrintedFamily(f: Family, rest: seq<string>)
    requires PrintableFamily(f)
    requires rest == [] || rest[0] == "" || rest[0][0] == '#'
    ensures ReadFamilies(FamilyLines(f) + rest)
            == match ReadFamilies(rest)
               case Some(more) => Some([f] + more)
               case None => None
  {
    hide ReadComment, ReadSamples, SampleCount, PrintSamples, PrintableSample;
    var lines := FamilyLines(f) + rest;
    var body := PrintSamples(f.samples);
    var n := |f.samples|;
    assert lines[0] == "# HELP " + f.name + " " + f.help;
    assert lines[1] == "# TYPE " + f.name + " " + f.kind;
    assert lines[2..] == body + rest;
    ReadPrintedSamples(f.samples);
    SampleCountOf(f.samples, rest);
    assert lines[2..2 + n] == body;
    assert lines[2 + n..] == rest;
    ReadPrintedComment("# HELP ", f.name, f.help);
    ReadPrintedComment("# TYPE ", f.name, f.kind);
  }

  lemma {:induction false} ReadPrintedFamilies(doc: seq<Family>)
    requires PrintableDoc(doc)
    ensures ReadFamilies(DocLines(doc) + [""]) == Some(doc)
  {
    hide ReadFamilies, FamilyLines, PrintableFamily;
    if doc == [] {
      ReadBlank();
      assert DocLines(doc) + [""] == [""];
    } else {
      assert PrintableFamily(doc[0]);
      ReadPrintedFamilies(doc[1..]);
      var rest := DocLines(doc[1..]) + [""];
      assert DocLines(doc) + [""] == FamilyLines(doc[0]) + rest;
      LinesStart(doc[1..]);
      ReadPrintedFamily(doc[0], rest);
      assert doc == [doc[0]] + doc[1..];
    }
  }

  lemma ReadBlank()
    ensures ReadFamilies([""]) == Some([])
  {
    assert [""][1..] == [];
    assert ReadFamilies([]) == Some([]);
  }

  lemma LinesStart(doc: seq<Family>)
    ensures DocLines(doc) == [] || (DocLines(doc)[0] != "" && DocLines(doc)[0][0] == '#')
  {
  }

  lemma {:induction false} LinesHaveNoNewline(doc: seq<Family>)
    requires PrintableDoc(doc)
    ensures forall i :: 0 <= i < |DocLines(doc)| ==> '\n' !in DocLines(doc)[i]
  {
    if doc != [] {
      var f := doc[0];
      assert PrintableFamily(f);
      assert '\n' !in f.name;
      SamplesHaveNoNewline(f.samples);
      LinesHaveNoNewline(doc[1..]);
    }
  }

  lemma {:induction false} SamplesHaveNoNewline(samples: seq<Sample>)
    requires forall i :: 0 <= i < |samples| ==> PrintableSample(samples[i])
    ensures forall i :: 0 <= i < |PrintSamples(samples)| ==> '\n' !in PrintSamples(samples)[i]
  {
    if samples != [] {
      assert PrintableSample(samples[0]);
      SampleIsOneLine(samples[0]);
      SamplesHaveNoNewline(samples[1..]);
    }
  }

  lemma {:induction false} JoinThenNewline(lines: seq<string>)
    requires lines != []
    ensures Join(lines, "\n") + "\n" == Join(lines + [""], "\n")
  {
    if |lines| == 1 {
      assert (lines + [""])[1..] == [""];
    } else {
      assert (lines + [""])[1..] == lines[1..] + [""];
      JoinThenNewline(lines[1..]);
    }
  }

  /** Reading a printed document gives the document back: nothing is lost or confused by escaping. */
  lemma ReadPrintedDoc(doc: seq<Family>)
    requires PrintableDoc(doc)
    ensures ReadDoc(PrintDoc(doc)) == Some(doc)
  {
    var lines := DocLines(doc);
    ReadPrintedFamilies(doc);
    if lines == [] {
      assert doc == [];
      assert PrintDoc(doc) == [] + ['\n'] + [];
      SplitPiece([], '\n', []);
      assert Split(PrintDoc(doc), '\n') == ["", ""];
      assert ["", ""][1..] == [""] == DocLines(doc) + [""];
    } else {
      LinesHaveNoNewline(doc);
      JoinThenNewline(lines);
      SplitJoin(lines + [""], '\n');
    }
  }
}
