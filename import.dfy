/** src/commands/import.rs: checking exposition-format text line by line, and
    turning JSON records or CSV records into exposition-format text. */
module Import {
  import opened Wrappers
  import opened Text
  import opened Numbers
  import opened Errors
  import J = JsonValue

  datatype ImportFormat = Prometheus | Json | Csv

  /** What `prepare_data` reads with: the number syntax, serde_json's parser and
      the csv reader (tokenising, header row skipped). `None` is a library error. */
  datatype Readers = Readers(
    numbers: NumberSyntax,
    parseJson: string -> Option<J.Json>,
    readCsv: string -> Option<seq<seq<string>>>)

  // ---------------------------------------------------------------------------
  // One exposition line

  /** `is_valid_prometheus_line`: split at the last space; an opening brace in
      the metric part needs a closing one; the trailing part must be numeric
      (two numbers when it holds a space itself, which it never does). */
  predicate IsValidLine(ns: NumberSyntax, line: string)
  {
    match RSplitOnce(line, ' ')
    case None => false
    case Some((metricPart, valuePart)) =>
      if '{' in metricPart && '}' !in metricPart then false
      else
        match RSplitOnce(valuePart, ' ')
        case Some((timestamp, value)) => IsNum(ns, timestamp) && IsNum(ns, value)
        case None => IsNum(ns, valuePart)
  }

  /** A line is valid exactly when it has a space, the token after its last
      space is numeric, and a brace opened before that space is closed there.
      The two-number branch is dead: the middle token is never looked at. */
  lemma ValidLineCharacterization(ns: NumberSyntax, line: string)
    ensures IsValidLine(ns, line) <==>
              ' ' in line &&
              var k := LastIndexOf(line, ' ');
              IsNum(ns, line[k + 1..]) && ('{' in line[..k] ==> '}' in line[..k])
  {
    if RSplitOnce(line, ' ').Some? {
      RSplitTailHasNoSeparator(line, ' ');
    }
  }

  // ---------------------------------------------------------------------------
  // Scanning a whole text

  /** Blank after trimming, or a comment: never checked. */
  predicate IsSkipped(line: string)
  {
    var t := Trim(line);
    t == [] || t[0] == '#'
  }

  /** A checked line that fails the line check. */
  predicate IsBad(ns: NumberSyntax, line: string)
  {
    !IsSkipped(line) && !IsValidLine(ns, Trim(line))
  }

  /** The warnings of a lenient scan: 1-based line number and trimmed text of
      every bad line, in order. */
  function BadLines(ns: NumberSyntax, lines: seq<string>): seq<(nat, string)>
  {
    if lines == [] then []
    else
      var last := lines[|lines| - 1];
      BadLines(ns, lines[..|lines| - 1]) + (if IsBad(ns, last) then [(|lines|, Trim(last))] else [])
  }

  /** Index of the first bad line, or -1. */
  function FirstBad(ns: NumberSyntax, lines: seq<string>): (k: int)
    ensures -1 <= k < |lines|
    ensures k == -1 <==> forall i :: 0 <= i < |lines| ==> !IsBad(ns, lines[i])
    ensures k >= 0 ==> IsBad(ns, lines[k]) && forall i :: 0 <= i < k ==> !IsBad(ns, lines[i])
  {
    FirstIndex(lines, line => IsBad(ns, line))
  }

  /** How `validate_prometheus_format` ends: rejected at a line (strict mode),
      or done with the counts it prints and the warnings it wrote. */
  datatype ScanOutcome =
    | Rejected(lineNumber: nat, text: string)
    | Scanned(lineCount: nat, errorCount: nat, warnings: seq<(nat, string)>)

  /** The outcome of a scan over `lines`. */
  function ScanSpec(ns: NumberSyntax, lines: seq<string>, skipErrors: bool): ScanOutcome
  {
    var k := FirstBad(ns, lines);
    if !skipErrors && k >= 0 then Rejected(k + 1, Trim(lines[k]))
    else Scanned(|lines|, |BadLines(ns, lines)|, BadLines(ns, lines))
  }

  /** A warning names line `n` with text `t` exactly when line `n` is bad and
      `t` is its trimmed text. */
  lemma {:induction false} BadLinesMembership(ns: NumberSyntax, lines: seq<string>, n: nat, t: string)
    ensures (n, t) in BadLines(ns, lines) <==>
              1 <= n <= |lines| && IsBad(ns, lines[n - 1]) && t == Trim(lines[n - 1])
  {
    if lines != [] {
      var init := lines[..|lines| - 1];
      BadLinesMembership(ns, init, n, t);
      if 1 <= n < |lines| {
        assert lines[n - 1] == init[n - 1];
      }
    }
  }

  /** There is nothing to warn about exactly when no line is bad. */
  lemma NoWarningsIffNoBadLine(ns: NumberSyntax, lines: seq<string>)
    ensures BadLines(ns, lines) == [] <==> forall i :: 0 <= i < |lines| ==> !IsBad(ns, lines[i])
  {
    if BadLines(ns, lines) != [] {
      var w := BadLines(ns, lines)[0];
      BadLinesMembership(ns, lines, w.0, w.1);
    }
    forall i | 0 <= i < |lines| && IsBad(ns, lines[i]) ensures BadLines(ns, lines) != [] {
      BadLinesMembership(ns, lines, i + 1, Trim(lines[i]));
    }
  }

  /** A bad line after a stretch without warnings is the first bad line. */
  lemma FirstBadAt(ns: NumberSyntax, lines: seq<string>, i: nat)
    requires i < |lines| && IsBad(ns, lines[i])
    requires BadLines(ns, lines[..i]) == []
    ensures FirstBad(ns, lines) == i
  {
    NoWarningsIffNoBadLine(ns, lines[..i]);
    assert forall j :: 0 <= j < i ==> lines[..i][j] == lines[j];
  }

  /** Blank and comment lines are never reported, in either mode. */
  lemma SkippedLinesNeverReported(ns: NumberSyntax, lines: seq<string>, skipErrors: bool, i: nat, t: string)
    requires i < |lines| && IsSkipped(lines[i])
    ensures ScanSpec(ns, lines, skipErrors) != Rejected(i + 1, t)
    ensures ScanSpec(ns, lines, skipErrors).Scanned? ==> (i + 1, t) !in ScanSpec(ns, lines, skipErrors).warnings
  {
    BadLinesMembership(ns, lines, i + 1, t);
  }

  /** A scan is rejected exactly in strict mode when some line is bad. */
  lemma ScanRejectedIff(ns: NumberSyntax, lines: seq<string>, skipErrors: bool)
    ensures ScanSpec(ns, lines, skipErrors).Rejected? <==>
              !skipErrors && exists i :: 0 <= i < |lines| && IsBad(ns, lines[i])
  {
  }

  lemma BadLinesStep(ns: NumberSyntax, lines: seq<string>, i: nat)
    requires i < |lines|
    ensures BadLines(ns, lines[..i + 1]) ==
              BadLines(ns, lines[..i]) + (if IsBad(ns, lines[i]) then [(i + 1, Trim(lines[i]))] else [])
  {
    assert lines[..i + 1][..i] == lines[..i];
  }

  /** `validate_prometheus_format`: counts every line, skips blank and comment
      lines, and on a bad line either stops (strict) or warns and goes on. */
  method ValidatePrometheusFormat(ns: NumberSyntax, content: string, skipErrors: bool) returns (outcome: ScanOutcome)
    ensures outcome == ScanSpec(ns, Lines(content), skipErrors)
    ensures outcome.Rejected? <==> !skipErrors && exists i :: 0 <= i < |Lines(content)| && IsBad(ns, Lines(content)[i])
    ensures outcome.Scanned? ==> outcome.lineCount == |Lines(content)| && outcome.errorCount == |outcome.warnings|
  {
    var lines := Lines(content);
    var lineCount: nat := 0;
    var errorCount: nat := 0;
    var warnings: seq<(nat, string)> := [];
    for i := 0 to |lines|
      invariant lineCount == i
      invariant warnings == BadLines(ns, lines[..i]) && errorCount == |warnings|
      invariant !skipErrors ==> warnings == []
    {
      BadLinesStep(ns, lines, i);
      lineCount := lineCount + 1;
      var line := Trim(lines[i]);
      if line == [] || line[0] == '#' {
        continue;
      }
      if !IsValidLine(ns, line) {
        errorCount := errorCount + 1;
        if !skipErrors {
          FirstBadAt(ns, lines, i);
          ScanRejectedIff(ns, lines, skipErrors);
          return Rejected(i + 1, line);
        }
        warnings := warnings + [(i + 1, line)];
      }
    }
    assert lines[..|lines|] == lines;
    NoWarningsIffNoBadLine(ns, lines);
    ScanRejectedIff(ns, lines, skipErrors);
    outcome := Scanned(lineCount, errorCount, warnings);
  }

  /** The text of the strict-mode `InvalidQuery` error. */
  function RejectionMessage(lineNumber: nat, text: string): string
  {
    "Неверный формат на строке " + NatToDecimal(lineNumber) + ": " + text
  }

  // ---------------------------------------------------------------------------
  // The line both converters emit

  /** `format!("{} {} {}", metric, value, timestamp as i64)`. */
  function ExpositionLine(ns: NumberSyntax, metric: string, value: F64, timestamp: F64): string
  {
    metric + " " + ns.show(value) + " " + IntToDecimal(AsI64(timestamp))
  }

  /** An emitted line ends in a digit, and holds a line break only if the
      metric text or the printed value does. */
  lemma ExpositionLineShape(ns: NumberSyntax, metric: string, value: F64, timestamp: F64)
    ensures var l := ExpositionLine(ns, metric, value, timestamp);
            l != [] && IsDigit(l[|l| - 1])
            && ('\n' !in metric && '\n' !in ns.show(value) ==> '\n' !in l)
  {
    var d := IntToDecimal(AsI64(timestamp));
    var l := ExpositionLine(ns, metric, value, timestamp);
    assert l[|l| - 1] == d[|d| - 1];
  }

  /** Once trimmed, an emitted line passes the exposition check when its
      metric text ends in a visible character, a brace opened before the
      timestamp is closed there, and integers parse as numbers: the token
      after the last space is the printed timestamp. */
  lemma ExpositionLineValid(ns: NumberSyntax, metric: string, value: F64, timestamp: F64)
    requires forall i: int :: IsNum(ns, IntToDecimal(i))
    requires metric != [] && !IsWhitespace(metric[|metric| - 1])
    requires var head := metric + " " + ns.show(value); '{' in head ==> '}' in head
    ensures IsValidLine(ns, Trim(ExpositionLine(ns, metric, value, timestamp)))
  {
    var d := IntToDecimal(AsI64(timestamp));
    var head := metric + " " + ns.show(value);
    assert head[|metric| - 1] == metric[|metric| - 1];
    assert TrimStart(head) != [];
    TrimmedLine(head, d);
    BraceSurvivesTrim(head);
    assert ExpositionLine(ns, metric, value, timestamp) == head + " " + d;
    ValidFromParts(ns, TrimStart(head), d);
  }

  /** Trimming `head + " " + d` only strips the leading whitespace of `head`
      when `head` has a visible character and `d` ends in a digit. */
  lemma TrimmedLine(head: string, d: string)
    requires TrimStart(head) != []
    requires d != [] && IsDigit(d[|d| - 1])
    ensures Trim(head + " " + d) == TrimStart(head) + " " + d
  {
    TrimStartConcat3(head, " ", d);
    var t := TrimStart(head) + " " + d;
    assert t[|t| - 1] == d[|d| - 1];
    TrimEndOfVisible(t);
  }

  /** Nothing to strip after a final digit. */
  lemma TrimEndOfVisible(t: string)
    requires t != [] && IsDigit(t[|t| - 1])
    ensures TrimEnd(t) == t
  {
  }

  /** `h + " " + d` is a valid line when `d` is a single numeric token and a
      brace opened in `h` is closed there. */
  lemma ValidFromParts(ns: NumberSyntax, h: string, d: string)
    requires ' ' !in d && IsNum(ns, d)
    requires '{' in h ==> '}' in h
    ensures IsValidLine(ns, h + " " + d)
  {
    var t := h + " " + d;
    LastIndexOfBeforeSuffix(h, ' ', d);
    assert t[|h| + 1..] == d && t[..|h|] == h;
    ValidLineCharacterization(ns, t);
  }

  /** Leading whitespace holds no brace, so trimming it keeps the rule that
      an opened brace is closed. */
  lemma BraceSurvivesTrim(head: string)
    requires '{' in head ==> '}' in head
    ensures '{' in TrimStart(head) ==> '}' in TrimStart(head)
  {
    var h := TrimStart(head);
    var cut := |head| - |h|;
    InSuffix(head, cut, '{');
    InSuffix(head, cut, '}');
    forall i | 0 <= i < cut
      ensures head[i] != '}'
    {
      assert IsWhitespace(head[i]);
    }
  }

  // ---------------------------------------------------------------------------
  // JSON records to exposition text

  /** `k="v"` for every member other than `__name__`, in member order; a value
      that is not a string renders as empty. */
  function LabelItems(members: seq<(string, J.Json)>): seq<string>
  {
    FilterMap(members, (m: (string, J.Json)) =>
      if m.0 == "__name__" then None
      else Some(m.0 + "=\"" + UnwrapOr(J.AsStr(m.1), "") + "\""))
  }

  /** The metric text of one record: the name (`unknown` when `__name__` is not
      a string, empty when absent), then the label block if there are labels. */
  function MetricText(members: seq<(string, J.Json)>): string
  {
    var name := match J.Lookup(members, "__name__")
      case None => ""
      case Some(v) => UnwrapOr(J.AsStr(v), "unknown");
    var labels := LabelItems(members);
    name + (if labels == [] then "" else "{" + Join(labels, ",") + "}")
  }

  /** The exposition line of one array item, without its line break, or
      nothing when the item is not `{"metric": {..}, "value": [ts, v]}` with two numbers. */
  function JsonItemLine(ns: NumberSyntax, item: J.Json): Option<string>
  {
    var metric := J.Get(item, "metric");
    var value := J.Get(item, "value");
    if metric.Some? && value.Some? && metric.value.JObject? && value.value.JArray?
       && |value.value.items| == 2 && value.value.items[0].JNum? && value.value.items[1].JNum?
    then
      var ts := value.value.items[0].n;
      var v := value.value.items[1].n;
      Some(ExpositionLine(ns, MetricText(metric.value.members), Finite(v), Finite(ts)))
    else None
  }

  /** What `convert_json_to_prometheus` produces from a parsed document. */
  function JsonToPrometheus(ns: NumberSyntax, doc: J.Json): string
  {
    if doc.JArray? then Unlines(FilterMap(doc.items, (item: J.Json) => JsonItemLine(ns, item))) else ""
  }

  /** `convert_json_to_prometheus` after parsing: one line per usable item. */
  method ConvertJsonToPrometheus(ns: NumberSyntax, doc: J.Json) returns (data: string)
    ensures data == JsonToPrometheus(ns, doc)
    ensures !doc.JArray? ==> data == ""
  {
    data := "";
    if doc.JArray? {
      var items := doc.items;
      ghost var f := (item: J.Json) => JsonItemLine(ns, item);
      for i := 0 to |items|
        invariant data == Unlines(FilterMap(items[..i], f))
      {
        UnlinesFilterMapStep(items, f, i);
        var line := JsonItemLine(ns, items[i]);
        assert f(items[i]) == line;
        match line {
          case Some(l) => data := data + (l + "\n");
          case None =>
        }
      }
      assert items[..|items|] == items;
    }
  }

  /** Lines produced by a converter end in a digit and hold no line break, so
      `str::lines` recovers them one for one. */
  lemma ConvertedLinesRecovered(ls: seq<string>)
    requires forall i :: 0 <= i < |ls| ==> '\n' !in ls[i] && ls[i] != [] && IsDigit(ls[i][|ls[i]| - 1])
    ensures Lines(Unlines(ls)) == ls
  {
    LinesUnlines(ls);
  }

  /** One output line per usable item, in item order, when no rendered piece
      holds a line break. */
  lemma JsonOutputLines(ns: NumberSyntax, items: seq<J.Json>)
    requires forall x :: '\n' !in ns.show(x)
    requires forall i :: 0 <= i < |items| && JsonItemLine(ns, items[i]).Some? ==>
               '\n' !in MetricText(J.Get(items[i], "metric").value.members)
    ensures var f := (item: J.Json) => JsonItemLine(ns, item);
            Lines(JsonToPrometheus(ns, J.JArray(items))) == FilterMap(items, f)
            && |Lines(JsonToPrometheus(ns, J.JArray(items)))| == |Kept(items, f)|
  {
    var f := (item: J.Json) => JsonItemLine(ns, item);
    var ls := FilterMap(items, f);
    FilterMapIsMapOfKept(items, f);
    forall j | 0 <= j < |ls|
      ensures '\n' !in ls[j] && ls[j] != [] && IsDigit(ls[j][|ls[j]| - 1])
    {
      var item := Kept(items, f)[j];
      KeptMembership(items, f, item);
      var v := J.Get(item, "value").value.items;
      ExpositionLineShape(ns, MetricText(J.Get(item, "metric").value.members), Finite(v[1].n), Finite(v[0].n));
    }
    ConvertedLinesRecovered(ls);
  }

  /** A JSON record that carries labels becomes a line the exposition check
      accepts, for any number syntax that reads integers. */
  lemma JsonLineIsValidExposition(ns: NumberSyntax, item: J.Json)
    requires forall i: int :: IsNum(ns, IntToDecimal(i))
    requires JsonItemLine(ns, item).Some?
    requires LabelItems(J.Get(item, "metric").value.members) != []
    ensures IsValidLine(ns, Trim(JsonItemLine(ns, item).value))
  {
    var members := J.Get(item, "metric").value.members;
    var v := J.Get(item, "value").value.items;
    var value := Finite(v[1].n);
    var timestamp := Finite(v[0].n);
    LabelledMetricValid(ns, members, value, timestamp);
    assert JsonItemLine(ns, item).value == ExpositionLine(ns, MetricText(members), value, timestamp);
  }

  /** The line of a metric text with a label block passes once trimmed. */
  lemma LabelledMetricValid(ns: NumberSyntax, members: seq<(string, J.Json)>, value: F64, timestamp: F64)
    requires forall i: int :: IsNum(ns, IntToDecimal(i))
    requires LabelItems(members) != []
    ensures IsValidLine(ns, Trim(ExpositionLine(ns, MetricText(members), value, timestamp)))
  {
    var m := MetricText(members);
    assert m[|m| - 1] == '}';
    var head := m + " " + ns.show(value);
    assert head[|m| - 1] == '}';
    ExpositionLineValid(ns, m, value, timestamp);
  }

  // ---------------------------------------------------------------------------
  // CSV records to exposition text

  /** The exposition line of one CSV record (timestamp, value, name, ...) or
      nothing when it has fewer than three fields or a non-numeric number field. */
  function CsvRecordLine(ns: NumberSyntax, record: seq<string>): Option<string>
  {
    if |record| >= 3 then
      var ts := ns.parse(record[0]);
      var val := ns.parse(record[1]);
      if ts.Some? && val.Some? then
        Some(ExpositionLine(ns, record[2], val.value, ts.value))
      else None
    else None
  }

  /** What `convert_csv_to_prometheus` produces from the records read. */
  function CsvToPrometheus(ns: NumberSyntax, records: seq<seq<string>>): string
  {
    Unlines(FilterMap(records, (r: seq<string>) => CsvRecordLine(ns, r)))
  }

  /** The body of the record loop: a record gives a line exactly when it has
      at least three fields and its first two parse; the line is the name,
      the value and the truncated timestamp. */
  method RecordLine(ns: NumberSyntax, record: seq<string>) returns (line: Option<string>)
    ensures line.Some? <==> |record| >= 3 && IsNum(ns, record[0]) && IsNum(ns, record[1])
    ensures line.Some? ==>
              line.value == ExpositionLine(ns, record[2], ns.parse(record[1]).value, ns.parse(record[0]).value)
    ensures line == CsvRecordLine(ns, record)
  {
    line := None;
    if |record| >= 3 {
      var timestamp := record[0];
      var value := record[1];
      var metricName := record[2];
      var ts := ns.parse(timestamp);
      var val := ns.parse(value);
      if ts.Some? && val.Some? {
        line := Some(ExpositionLine(ns, metricName, val.value, ts.value));
      }
    }
  }

  /** `convert_csv_to_prometheus` after tokenising. */
  method ConvertCsvToPrometheus(ns: NumberSyntax, records: seq<seq<string>>) returns (data: string)
    ensures data == CsvToPrometheus(ns, records)
  {
    data := "";
    ghost var f := (r: seq<string>) => CsvRecordLine(ns, r);
    for i := 0 to |records|
      invariant data == Unlines(FilterMap(records[..i], f))
    {
      UnlinesFilterMapStep(records, f, i);
      var line := RecordLine(ns, records[i]);
      assert f(records[i]) == line;
      match line {
        case Some(l) => data := data + (l + "\n");
        case None =>
      }
    }
    assert records[..|records|] == records;
  }

  /** A record contributes a line exactly when it has three fields and its
      first two parse; the lines come out in record order, one per such record. */
  lemma CsvOutputLines(ns: NumberSyntax, records: seq<seq<string>>)
    requires forall x :: '\n' !in ns.show(x)
    requires forall i :: 0 <= i < |records| && |records[i]| >= 3 ==> '\n' !in records[i][2]
    ensures var f := (r: seq<string>) => CsvRecordLine(ns, r);
            Lines(CsvToPrometheus(ns, records)) == FilterMap(records, f)
            && (forall r :: r in Kept(records, f) <==>
                  r in records && |r| >= 3 && IsNum(ns, r[0]) && IsNum(ns, r[1]))
  {
    var f := (r: seq<string>) => CsvRecordLine(ns, r);
    var ls := FilterMap(records, f);
    FilterMapIsMapOfKept(records, f);
    forall r ensures r in Kept(records, f) <==> r in records && f(r).Some? {
      KeptMembership(records, f, r);
    }
    forall j | 0 <= j < |ls|
      ensures '\n' !in ls[j] && ls[j] != [] && IsDigit(ls[j][|ls[j]| - 1])
    {
      var r := Kept(records, f)[j];
      KeptMembership(records, f, r);
      ExpositionLineShape(ns, r[2], ns.parse(r[1]).value, ns.parse(r[0]).value);
    }
    ConvertedLinesRecovered(ls);
  }

  // ---------------------------------------------------------------------------
  // prepare_data

  /** `prepare_data`: validate exposition text and pass it through, or convert
      JSON or CSV input; every failure is an error value. */
  method PrepareData(rd: Readers, format: ImportFormat, content: string, skipErrors: bool)
    returns (r: CliResult<string>)
    ensures format.Prometheus? ==>
      r == match ScanSpec(rd.numbers, Lines(content), skipErrors)
           case Rejected(n, t) => Err(InvalidQuery(RejectionMessage(n, t)))
           case Scanned(_, _, _) => Ok(content)
    ensures format.Json? ==>
      r == match rd.parseJson(content)
           case None => Err(JsonError)
           case Some(doc) => Ok(JsonToPrometheus(rd.numbers, doc))
    ensures format.Csv? ==>
      r == match rd.readCsv(content)
           case None => Err(CsvError)
           case Some(records) => Ok(CsvToPrometheus(rd.numbers, records))
  {
    match format {
      case Prometheus =>
        var outcome := ValidatePrometheusFormat(rd.numbers, content, skipErrors);
        if outcome.Rejected? {
          return Err(InvalidQuery(RejectionMessage(outcome.lineNumber, outcome.text)));
        }
        return Ok(content);
      case Json =>
        var doc := rd.parseJson(content);
        if doc.None? {
          return Err(JsonError);
        }
        var data := ConvertJsonToPrometheus(rd.numbers, doc.value);
        return Ok(data);
      case Csv =>
        var records := rd.readCsv(content);
        if records.None? {
          return Err(CsvError);
        }
        var data := ConvertCsvToPrometheus(rd.numbers, records.value);
        return Ok(data);
    }
  }
}
