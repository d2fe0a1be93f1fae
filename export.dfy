/** src/commands/export.rs: choosing the export window, and re-rendering the
    exported exposition text as JSON records or CSV rows. */
module Export {
  import opened Wrappers
  import opened Text
  import opened Numbers
  import opened Errors
  import U = Utils
  import J = JsonValue

  datatype ExportFormat = Prometheus | Json | Csv

  // ---------------------------------------------------------------------------
  // The export window

  /** The window options of the command line. */
  datatype WindowArgs = WindowArgs(start: Option<string>, end: Option<string>, range: Option<string>)

  /** `parse_time_range` with its message wrapped as the command's error. */
  function RangeWindow(token: string, now: int): CliResult<(string, string)>
  {
    match U.ParseTimeRange(token, now)
    case Ok(w) => Ok(w)
    case Err(e) => Err(TimeParseError(e))
  }

  /** `determine_time_range`, with the clock reading `now` passed in. */
  function DetermineTimeRange(args: WindowArgs, now: int): CliResult<(string, string)>
  {
    if args.range.Some? then RangeWindow(args.range.value, now)
    else if args.start.Some? && args.end.Some? then Ok((args.start.value, args.end.value))
    else RangeWindow("1h", now)
  }

  /** A range token wins: a known one gives the window ending now, any other
      one fails with a time-parse error naming it. Without a token, explicit
      bounds are used verbatim when both are given; otherwise the last hour. */
  lemma WindowPrecedence(args: WindowArgs, now: int)
    ensures args.range.Some? ==>
              var r := DetermineTimeRange(args, now);
              var d := U.RangeSeconds(args.range.value);
              (r.Ok? <==> d.Some?)
              && (r.Ok? ==> ParseInt(r.value.0) == Some(now - d.value) && ParseInt(r.value.1) == Some(now))
              && (r.Err? ==> r.error == TimeParseError(U.UnknownRangePrefix + args.range.value))
    ensures args.range.None? && args.start.Some? && args.end.Some? ==>
              DetermineTimeRange(args, now) == Ok((args.start.value, args.end.value))
    ensures args.range.None? && (args.start.None? || args.end.None?) ==>
              var r := DetermineTimeRange(args, now);
              r.Ok? && ParseInt(r.value.0) == Some(now - 3600) && ParseInt(r.value.1) == Some(now)
  {
    if args.range.Some? {
      U.TimeRangeWindow(args.range.value, now);
    } else {
      U.TimeRangeWindow("1h", now);
    }
  }

  // ---------------------------------------------------------------------------
  // Lines the record loops look at

  /** A line both record loops pass over: one that starts with `#` as it
      stands (no trimming first), or one that is blank. */
  predicate Skipped(line: string)
  {
    StartsWith(line, "#") || Trim(line) == []
  }

  /** The metric part, timestamp and value of a line as both record loops cut
      it: around the last space, then the part after it around its own last
      space. */
  function Sample(line: string): Option<(string, string, string)>
  {
    match RSplitOnce(line, ' ')
    case None => None
    case Some((metricPart, valuePart)) =>
      match RSplitOnce(valuePart, ' ')
      case Some((timestamp, value)) => Some((metricPart, timestamp, value))
      case None => None
  }

  /** The part after the last space holds no space, so no line ever yields a
      sample. */
  lemma NoSample(line: string)
    ensures Sample(line).None?
  {
    if RSplitOnce(line, ' ').Some? {
      RSplitTailHasNoSeparator(line, ' ');
    }
  }

  // ---------------------------------------------------------------------------
  // Label extraction

  /** `HashMap::insert`: a present key takes the new value where it stands, a
      new key is added at the end. */
  function Insert(info: seq<(string, string)>, key: string, value: string): (r: seq<(string, string)>)
    ensures J.Lookup(r, key) == Some(value)
    ensures |r| == |info| || |r| == |info| + 1
  {
    if info == [] then [(key, value)]
    else if info[0].0 == key then [(key, value)] + info[1..]
    else [info[0]] + Insert(info[1..], key, value)
  }

  /** Inserting leaves every other key as it was. */
  lemma {:induction false} InsertKeepsOthers(info: seq<(string, string)>, key: string, value: string, k: string)
    requires k != key
    ensures J.Lookup(Insert(info, key, value), k) == J.Lookup(info, k)
  {
    if info != [] && info[0].0 != key {
      InsertKeepsOthers(info[1..], key, value, k);
    }
  }

  /** Every entry after inserting has the inserted key or was there before. */
  lemma {:induction false} InsertEntries(info: seq<(string, string)>, key: string, value: string)
    ensures forall e :: e in Insert(info, key, value) ==> e.0 == key || e in info
  {
    if info != [] && info[0].0 != key {
      InsertEntries(info[1..], key, value);
    }
  }

  /** Inserting keeps the keys distinct. */
  lemma {:induction false} InsertDistinct(info: seq<(string, string)>, key: string, value: string)
    requires J.DistinctKeys(info)
    ensures J.DistinctKeys(Insert(info, key, value))
  {
    if info == [] {
    } else if info[0].0 == key {
      var r := Insert(info, key, value);
      assert forall i :: 0 < i < |r| ==> r[i] == info[i];
    } else {
      var rest := Insert(info[1..], key, value);
      InsertDistinct(info[1..], key, value);
      InsertEntries(info[1..], key, value);
      var r := [info[0]] + rest;
      forall j | 0 < j < |r|
        ensures r[0].0 != r[j].0
      {
        assert r[j] in rest;
      }
    }
  }

  /** Every entry inserted in turn. */
  function InsertAll(info: seq<(string, string)>, entries: seq<(string, string)>): seq<(string, string)>
  {
    if entries == [] then info
    else
      var last := entries[|entries| - 1];
      Insert(InsertAll(info, entries[..|entries| - 1]), last.0, last.1)
  }

  /** One more entry is one more insertion. */
  lemma InsertAllStep(info: seq<(string, string)>, entries: seq<(string, string)>, e: (string, string))
    ensures InsertAll(info, entries + [e]) == Insert(InsertAll(info, entries), e.0, e.1)
  {
    assert (entries + [e])[..|entries|] == entries;
  }

  /** The value of the last entry with `key`. */
  function LastValue(entries: seq<(string, string)>, key: string): (r: Option<string>)
    ensures r.None? <==> forall i :: 0 <= i < |entries| ==> entries[i].0 != key
    ensures r.Some? ==> (key, r.value) in entries
  {
    if entries == [] then None
    else if entries[|entries| - 1].0 == key then Some(entries[|entries| - 1].1)
    else LastValue(entries[..|entries| - 1], key)
  }

  /** After inserting entries, a key holds the value of the last entry that
      names it, or what it held before when none does. */
  lemma {:induction false} InsertAllLookup(info: seq<(string, string)>, entries: seq<(string, string)>, key: string)
    ensures J.Lookup(InsertAll(info, entries), key) ==
              match LastValue(entries, key)
              case Some(v) => Some(v)
              case None => J.Lookup(info, key)
  {
    if entries != [] {
      var last := entries[|entries| - 1];
      InsertAllLookup(info, entries[..|entries| - 1], key);
      if last.0 != key {
        InsertKeepsOthers(InsertAll(info, entries[..|entries| - 1]), last.0, last.1, key);
      }
    }
  }

  /** Inserting keeps the keys distinct. */
  lemma {:induction false} InsertAllDistinct(info: seq<(string, string)>, entries: seq<(string, string)>)
    requires J.DistinctKeys(info)
    ensures J.DistinctKeys(InsertAll(info, entries))
  {
    if entries != [] {
      var last := entries[|entries| - 1];
      InsertAllDistinct(info, entries[..|entries| - 1]);
      InsertDistinct(InsertAll(info, entries[..|entries| - 1]), last.0, last.1);
    }
  }

  /** One `key=value` piece of a label block, the value stripped of every
      surrounding `"`; a piece without `=` gives nothing. */
  function LabelEntry(piece: string): Option<(string, string)>
  {
    match SplitOnce(piece, '=')
    case Some((key, value)) => Some((key, TrimMatches(value, '"')))
    case None => None
  }

  /** The name of a metric part: the text before its first `{`, or all of it. */
  function MetricName(metricPart: string): string
  {
    match SplitOnce(metricPart, '{')
    case Some((name, _)) => name
    case None => metricPart
  }

  /** The text between the first `{` and a final `}`, when there are both. */
  function LabelBlock(metricPart: string): Option<string>
  {
    match SplitOnce(metricPart, '{')
    case Some((_, rest)) => StripSuffix(rest, '}')
    case None => None
  }

  /** The label entries of a metric part, in the order they are written. */
  function ParsedLabels(metricPart: string): seq<(string, string)>
  {
    match LabelBlock(metricPart)
    case Some(inner) => FilterMap(Split(inner, ','), LabelEntry)
    case None => []
  }

  /** The `metric_info` map of a metric part: `__name__` first, then every
      parsed label inserted in turn, so a label named `__name__` replaces it. */
  function MetricInfo(metricPart: string): seq<(string, string)>
  {
    InsertAll([("__name__", MetricName(metricPart))], ParsedLabels(metricPart))
  }

  /** The loop over the pieces of the label block. */
  method ExtractMetricInfo(metricPart: string) returns (info: seq<(string, string)>)
    ensures info == MetricInfo(metricPart)
  {
    info := [("__name__", MetricName(metricPart))];
    var block := LabelBlock(metricPart);
    if block.Some? {
      var pieces := Split(block.value, ',');
      ghost var base := info;
      for i := 0 to |pieces|
        invariant info == InsertAll(base, FilterMap(pieces[..i], LabelEntry))
      {
        FilterMapStep(pieces, LabelEntry, i);
        ghost var done := FilterMap(pieces[..i], LabelEntry);
        var entry := LabelEntry(pieces[i]);
        if entry.Some? {
          assert FilterMap(pieces[..i + 1], LabelEntry) == done + [entry.value];
          InsertAllStep(base, done, entry.value);
          info := Insert(info, entry.value.0, entry.value.1);
        } else {
          assert FilterMap(pieces[..i + 1], LabelEntry) == done + [];
          assert done + [] == done;
        }
      }
      assert pieces[..|pieces|] == pieces;
    }
  }

  /** `__name__` is always present: the metric name unless a label of that
      name overrides it; every other key holds the last value written for it;
      keys are distinct; labels are read only from a block closed by `}`. */
  lemma MetricInfoLookup(metricPart: string, key: string)
    ensures key == "__name__" ==>
              J.Lookup(MetricInfo(metricPart), key) ==
                Some(UnwrapOr(LastValue(ParsedLabels(metricPart), key), MetricName(metricPart)))
    ensures key != "__name__" ==>
              J.Lookup(MetricInfo(metricPart), key) == LastValue(ParsedLabels(metricPart), key)
    ensures J.DistinctKeys(MetricInfo(metricPart))
    ensures LabelBlock(metricPart).None? ==> MetricInfo(metricPart) == [("__name__", MetricName(metricPart))]
  {
    var base := [("__name__", MetricName(metricPart))];
    InsertAllLookup(base, ParsedLabels(metricPart), key);
    InsertAllDistinct(base, ParsedLabels(metricPart));
  }

  /** The piece `key="value"` of a label block. */
  function QuotedPair(kv: (string, string)): string
  {
    kv.0 + "=\"" + kv.1 + "\""
  }

  /** The pieces of a label block, in order. */
  function QuotedPairs(labels: seq<(string, string)>): (ps: seq<string>)
    ensures |ps| == |labels|
    ensures forall i :: 0 <= i < |labels| ==> ps[i] == QuotedPair(labels[i])
  {
    if labels == [] then [] else QuotedPairs(labels[..|labels| - 1]) + [QuotedPair(labels[|labels| - 1])]
  }

  /** A label that survives being written as `key="value"` and read back:
      no `=` or `,` in the key, no `,` in the value, no `"` at either end of it. */
  predicate Writable(kv: (string, string))
  {
    '=' !in kv.0 && ',' !in kv.0 && ',' !in kv.1
    && (kv.1 == [] || (kv.1[0] != '"' && kv.1[|kv.1| - 1] != '"'))
  }

  /** One piece reads back as the label it was written from. */
  lemma QuotedPairRecovered(kv: (string, string))
    requires Writable(kv)
    ensures LabelEntry(QuotedPair(kv)) == Some(kv)
    ensures ',' !in QuotedPair(kv)
  {
    var (k, v) := kv;
    var quoted := "\"" + v + "\"";
    var piece := k + ['='] + quoted;
    assert QuotedPair(kv) == piece;
    SplitAtFirst(k, '=', quoted);
    QuotesTrimmed(v);
    NoCommaInPair(k, v);
  }

  lemma NoCommaInPair(k: string, v: string)
    requires ',' !in k && ',' !in v
    ensures ',' !in k + "=\"" + v + "\""
  {
  }

  /** Splitting at the first `c` of `a + [c] + b` when `a` has none. */
  lemma SplitAtFirst(a: string, c: char, b: string)
    requires c !in a
    ensures SplitOnce(a + [c] + b, c) == Some((a, b))
  {
    IndexOfAfterPrefix(a, c, b);
    var s := a + [c] + b;
    assert s[..|a|] == a;
    assert s[|a| + 1..] == b;
  }

  /** A value in one pair of quotes comes back from trimming the quotes. */
  lemma QuotesTrimmed(v: string)
    requires v == [] || (v[0] != '"' && v[|v| - 1] != '"')
    ensures TrimMatches("\"" + v + "\"", '"') == v
  {
    TrimMatchesWrapped(v, '"', 1, 1);
    assert seq(1, _ => '"') == "\"";
  }

  /** A label block written the way the import side writes one reads back as
      the same entries, in the same order. */
  lemma LabelBlockRecovered(name: string, labels: seq<(string, string)>)
    requires '{' !in name
    requires forall i :: 0 <= i < |labels| ==> Writable(labels[i])
    ensures var metricPart := name + "{" + Join(QuotedPairs(labels), ",") + "}";
            MetricName(metricPart) == name && ParsedLabels(metricPart) == labels
  {
    MetricPartParts(name, Join(QuotedPairs(labels), ","));
    PairsRecovered(labels);
  }

  /** `name{inner}` has the name before the brace and the block inside. */
  lemma MetricPartParts(name: string, inner: string)
    requires '{' !in name
    ensures MetricName(name + "{" + inner + "}") == name
    ensures LabelBlock(name + "{" + inner + "}") == Some(inner)
  {
    var metricPart := name + "{" + inner + "}";
    assert metricPart == name + ['{'] + (inner + "}");
    SplitAtFirst(name, '{', inner + "}");
    assert (inner + "}")[..|inner|] == inner;
  }

  /** The pieces of a label block, joined by commas, read back as the labels. */
  lemma PairsRecovered(labels: seq<(string, string)>)
    requires forall i :: 0 <= i < |labels| ==> Writable(labels[i])
    ensures FilterMap(Split(Join(QuotedPairs(labels), ","), ','), LabelEntry) == labels
  {
    var pieces := QuotedPairs(labels);
    forall i | 0 <= i < |pieces|
      ensures LabelEntry(pieces[i]) == Some(labels[i]) && ',' !in pieces[i]
    {
      QuotedPairRecovered(labels[i]);
    }
    if labels == [] {
      assert Split("", ',') == [""];
      assert SplitOnce("", '=') == None;
      assert FilterMap([""], LabelEntry) == FilterMap([], LabelEntry) + [];
    } else {
      assert "," == [','];
      SplitJoin(pieces, ',');
      EntriesRecovered(pieces, labels);
    }
  }

  /** Pieces that each read back as one label give those labels. */
  lemma EntriesRecovered(pieces: seq<string>, labels: seq<(string, string)>)
    requires |pieces| == |labels|
    requires forall i :: 0 <= i < |pieces| ==> LabelEntry(pieces[i]) == Some(labels[i])
    ensures FilterMap(pieces, LabelEntry) == labels
  {
    KeptAll(pieces, LabelEntry);
    FilterMapIsMapOfKept(pieces, LabelEntry);
  }

  // ---------------------------------------------------------------------------
  // JSON records

  /** `s.parse::<f64>().unwrap_or(0.0)` put into a `json!` value: a finite
      number is a number, an infinite or NaN one is `null`. */
  function NumberValue(ns: NumberSyntax, s: string): J.Json
  {
    match ns.parse(s)
    case None => J.JNum(0.0)
    case Some(Finite(r)) => J.JNum(r)
    case Some(_) => J.JNull
  }

  /** A label map as a JSON object of strings. */
  function InfoObject(info: seq<(string, string)>): (members: seq<(string, J.Json)>)
    ensures |members| == |info|
    ensures forall i :: 0 <= i < |info| ==> members[i] == (info[i].0, J.JStr(info[i].1))
  {
    if info == [] then [] else InfoObject(info[..|info| - 1]) + [(info[|info| - 1].0, J.JStr(info[|info| - 1].1))]
  }

  /** The record of one line of the JSON branch, when the line yields a sample. */
  function JsonRecord(ns: NumberSyntax, line: string): Option<J.Json>
  {
    if Skipped(line) then None
    else
      match Sample(line)
      case Some((metricPart, timestamp, value)) =>
        Some(J.JObject([("metric", J.JObject(InfoObject(MetricInfo(metricPart)))),
                        ("value", J.JArray([NumberValue(ns, timestamp), NumberValue(ns, value)]))]))
      case None => None
  }

  function RecordOf(ns: NumberSyntax): string -> Option<J.Json>
  {
    line => JsonRecord(ns, line)
  }

  /** The records of the JSON branch, in line order. */
  function JsonRecords(ns: NumberSyntax, data: string): seq<J.Json>
  {
    FilterMap(Lines(data), RecordOf(ns))
  }

  /** No line yields a record, so the JSON branch always serialises an empty
      array. */
  lemma NoJsonRecords(ns: NumberSyntax, data: string)
    ensures JsonRecords(ns, data) == []
  {
    var lines := Lines(data);
    forall i | 0 <= i < |lines|
      ensures RecordOf(ns)(lines[i]).None?
    {
      NoSample(lines[i]);
    }
    KeptNone(lines, RecordOf(ns));
  }

  /** The body of the record loop: the checks on one line and the record it
      pushes, which never exists. */
  method LineRecord(ns: NumberSyntax, line: string) returns (entry: Option<J.Json>)
    ensures entry.None?
    ensures entry == JsonRecord(ns, line)
  {
    NoSample(line);
    entry := None;
    if !(StartsWith(line, "#") || Trim(line) == []) {
      var split := RSplitOnce(line, ' ');
      if split.Some? {
        var (metricPart, valuePart) := split.value;
        var info := ExtractMetricInfo(metricPart);
        var inner := RSplitOnce(valuePart, ' ');
        match inner {
          case Some((timestamp, value)) =>
            entry := Some(J.JObject([("metric", J.JObject(InfoObject(info))),
                                     ("value", J.JArray([NumberValue(ns, timestamp), NumberValue(ns, value)]))]));
          case None =>
        }
      }
    }
  }

  /** The record loop of the JSON branch. */
  method CollectJsonRecords(ns: NumberSyntax, data: string) returns (records: seq<J.Json>)
    ensures records == JsonRecords(ns, data)
  {
    var lines := Lines(data);
    records := [];
    ghost var recordOf := RecordOf(ns);
    for i := 0 to |lines|
      invariant records == FilterMap(lines[..i], recordOf)
    {
      FilterMapStep(lines, recordOf, i);
      ghost var done := FilterMap(lines[..i], recordOf);
      var entry := LineRecord(ns, lines[i]);
      match entry {
        case Some(e) =>
          records := records + [e];
        case None =>
          assert done + [] == done;
      }
    }
    assert lines[..|lines|] == lines;
  }

  // ---------------------------------------------------------------------------
  // CSV rows

  const CsvHeader := "timestamp,value,metric_name"

  /** The row of one line of the CSV branch, led by its line break. */
  function CsvRow(line: string): Option<string>
  {
    if Skipped(line) then None
    else
      match Sample(line)
      case Some((metricPart, timestamp, value)) => Some("\n" + timestamp + "," + value + "," + MetricName(metricPart))
      case None => None
  }

  /** Strings one after another. */
  function Concat(xs: seq<string>): string
  {
    if xs == [] then "" else Concat(xs[..|xs| - 1]) + xs[|xs| - 1]
  }

  /** The text of the CSV branch: the header, then every row. */
  function CsvExport(data: string): string
  {
    CsvHeader + Concat(FilterMap(Lines(data), CsvRow))
  }

  /** No line yields a row, so the CSV branch is always the bare header, with
      no line break after it. */
  lemma CsvExportIsHeader(data: string)
    ensures CsvExport(data) == CsvHeader
  {
    var lines := Lines(data);
    forall i | 0 <= i < |lines|
      ensures CsvRow(lines[i]).None?
    {
      NoSample(lines[i]);
    }
    KeptNone(lines, CsvRow);
  }

  /** The body of the row loop: the checks on one line and the row it
      appends, which never exists. */
  method LineRow(line: string) returns (row: Option<string>)
    ensures row.None?
    ensures row == CsvRow(line)
  {
    NoSample(line);
    row := None;
    if !(StartsWith(line, "#") || Trim(line) == []) {
      var split := RSplitOnce(line, ' ');
      if split.Some? {
        var (metricPart, valuePart) := split.value;
        var name := MetricName(metricPart);
        var inner := RSplitOnce(valuePart, ' ');
        match inner {
          case Some((timestamp, value)) =>
            row := Some("\n" + timestamp + "," + value + "," + name);
          case None =>
        }
      }
    }
  }

  /** One more string is one more piece at the end. */
  lemma ConcatStep(xs: seq<string>, x: string)
    ensures Concat(xs + [x]) == Concat(xs) + x
  {
    assert (xs + [x])[..|xs|] == xs;
  }

  /** One more line adds its row, or nothing, to the concatenated rows. */
  lemma RowsStep(lines: seq<string>, i: nat)
    requires i < |lines|
    ensures Concat(FilterMap(lines[..i + 1], CsvRow)) ==
              Concat(FilterMap(lines[..i], CsvRow)) + UnwrapOr(CsvRow(lines[i]), "")
  {
    FilterMapStep(lines, CsvRow, i);
    var done := FilterMap(lines[..i], CsvRow);
    match CsvRow(lines[i]) {
      case Some(r) => ConcatStep(done, r);
      case None => assert done + [] == done;
    }
  }

  /** The row loop of the CSV branch. */
  method ExportCsv(data: string) returns (csv: string)
    ensures csv == CsvExport(data)
  {
    csv := CsvHeader;
    var lines := Lines(data);
    ghost var rows := "";
    for i := 0 to |lines|
      invariant rows == Concat(FilterMap(lines[..i], CsvRow))
      invariant csv == CsvHeader + rows
    {
      RowsStep(lines, i);
      var row := LineRow(lines[i]);
      var r := UnwrapOr(row, "");
      csv := csv + r;
      rows := rows + r;
    }
    assert lines[..|lines|] == lines;
  }

  // ---------------------------------------------------------------------------
  // format_data

  /** `format_data`, with serde_json's pretty printer passed in (`None` is its
      error). */
  function FormattedData(ns: NumberSyntax, pretty: J.Json -> Option<string>, format: ExportFormat,
                         data: string): CliResult<string>
  {
    match format
    case Prometheus => Ok(data)
    case Json =>
      (match pretty(J.JArray(JsonRecords(ns, data)))
       case Some(text) => Ok(text)
       case None => Err(JsonError))
    case Csv => Ok(CsvExport(data))
  }

  method FormatData(ns: NumberSyntax, pretty: J.Json -> Option<string>, format: ExportFormat,
                    data: string) returns (r: CliResult<string>)
    ensures r == FormattedData(ns, pretty, format, data)
  {
    match format {
      case Prometheus =>
        r := Ok(data);
      case Json =>
        var records := CollectJsonRecords(ns, data);
        var text := pretty(J.JArray(records));
        if text.Some? {
          r := Ok(text.value);
        } else {
          r := Err(JsonError);
        }
      case Csv =>
        var csv := ExportCsv(data);
        r := Ok(csv);
    }
  }

  /** What each format gives for any exported text: the text unchanged, the
      serialisation of an empty array, or the bare CSV header. */
  lemma FormattedDataOutcomes(ns: NumberSyntax, pretty: J.Json -> Option<string>, data: string)
    ensures FormattedData(ns, pretty, Prometheus, data) == Ok(data)
    ensures FormattedData(ns, pretty, Json, data) ==
              match pretty(J.JArray([]))
              case Some(text) => Ok(text)
              case None => Err(JsonError)
    ensures FormattedData(ns, pretty, Csv, data) == Ok(CsvHeader)
  {
    NoJsonRecords(ns, data);
    CsvExportIsHeader(data);
  }
}
