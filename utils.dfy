/** src/utils.rs: the symbolic time-range table, the PromQL pre-check, and
    the CSV and table renderings of a query result. */
module Utils {
  import opened Wrappers
  import opened Text
  import opened Numbers
  import Api
  import J = JsonValue

  // ---------------------------------------------------------------------------
  // Symbolic time ranges

  /** The length in seconds of each token `parse_time_range` knows. Tokens
      are compared exactly, case included. */
  function RangeSeconds(token: string): Option<nat>
  {
    if token == "1h" || token == "1hour" then Some(3600)
    else if token == "6h" || token == "6hours" then Some(21600)
    else if token == "24h" || token == "1d" || token == "1day" then Some(86400)
    else if token == "7d" || token == "7days" then Some(604800)
    else if token == "30d" || token == "30days" then Some(2592000)
    else None
  }

  const UnknownRangePrefix := "Неизвестный диапазон времени: "

  /** `parse_time_range` with the clock reading `now` (Unix seconds) passed in:
      the window `(now - d, now)` as decimal strings. */
  function ParseTimeRange(token: string, now: int): Result<(string, string), string>
  {
    match RangeSeconds(token)
    case Some(d) => Ok((IntToDecimal(now - d), IntToDecimal(now)))
    case None => Err(UnknownRangePrefix + token)
  }

  /** A known token gives a window ending now whose bounds read back as the
      integers `now - d` and `now`; any other token is refused with a message
      that ends with the token itself. */
  lemma TimeRangeWindow(token: string, now: int)
    ensures RangeSeconds(token).Some? ==>
              ParseTimeRange(token, now).Ok?
              && ParseInt(ParseTimeRange(token, now).value.0) == Some(now - RangeSeconds(token).value)
              && ParseInt(ParseTimeRange(token, now).value.1) == Some(now)
    ensures RangeSeconds(token).None? ==>
              ParseTimeRange(token, now) == Err(UnknownRangePrefix + token)
              && EndsWith(ParseTimeRange(token, now).error, token)
              && Contains(ParseTimeRange(token, now).error, token)
  {
    match RangeSeconds(token) {
      case Some(d) =>
        IntDecimalRoundTrip(now - d);
        IntDecimalRoundTrip(now);
      case None =>
        var msg := UnknownRangePrefix + token;
        assert msg[|msg| - |token|..] == token;
        ContainsSuffix(UnknownRangePrefix, token);
    }
  }

  /** A string contains itself once anything is put in front of it. */
  lemma ContainsSuffix(a: string, b: string)
    ensures Contains(a + b, b)
  {
    assert Contains(b, b) by {
      assert b[..|b|] == b;
    }
    ContainsInfix(a, b, "", b);
    assert a + b + "" == a + b;
  }

  // ---------------------------------------------------------------------------
  // The PromQL pre-check

  const Operators: seq<string> := ["+", "-", "*", "/", "%", "==", "!=", ">", "<", ">=", "<="]
  const Functions: seq<string> := ["sum", "avg", "count", "min", "max", "rate", "increase"]

  const EmptyQueryMessage := "Запрос не может быть пустым"
  const UnrecognisedQueryMessage := "Запрос должен содержать операторы, функции или быть валидной метрикой"

  /** `char::is_alphanumeric`, on ASCII letters and digits. */
  predicate IsAlphanumeric(c: char)
  {
    'a' <= c <= 'z' || 'A' <= c <= 'Z' || '0' <= c <= '9'
  }

  /** A character a bare selector may be written with. */
  predicate IsSelectorChar(c: char)
  {
    IsAlphanumeric(c) || c == '_' || c == '{' || c == '}' || c == '=' || c == '"' || c == ',' || c == ' '
  }

  predicate HasOperator(q: string)
  {
    exists k :: 0 <= k < |Operators| && Contains(q, Operators[k])
  }

  predicate HasFunction(q: string)
  {
    exists k :: 0 <= k < |Functions| && Contains(q, Functions[k])
  }

  predicate IsSimpleMetric(q: string)
  {
    forall i :: 0 <= i < |q| ==> IsSelectorChar(q[i])
  }

  /** `validate_promql_query`. */
  function ValidatePromql(q: string): Result<(), string>
  {
    if Trim(q) == [] then Err(EmptyQueryMessage)
    else if !HasOperator(q) && !HasFunction(q) && !Contains(q, "{") && !IsSimpleMetric(q) then
      Err(UnrecognisedQueryMessage)
    else Ok(())
  }

  /** A query is refused as empty exactly when it is all whitespace; any other
      query passes exactly when it names an operator or a function anywhere,
      holds an opening brace, or is made only of selector characters. */
  lemma PromqlCharacterization(q: string)
    ensures ValidatePromql(q) == Err(EmptyQueryMessage) <==>
              forall i :: 0 <= i < |q| ==> IsWhitespace(q[i])
    ensures ValidatePromql(q).Ok? <==>
              (exists i :: 0 <= i < |q| && !IsWhitespace(q[i]))
              && (HasOperator(q) || HasFunction(q) || '{' in q || IsSimpleMetric(q))
  {
    TrimEmptyIffBlank(q);
    ContainsChar(q, '{');
    assert "{" == ['{'];
  }

  /** A query with a visible character is not blank once trimmed. */
  lemma VisibleNotBlank(q: string)
    requires exists i :: 0 <= i < |q| && !IsWhitespace(q[i])
    ensures Trim(q) != []
  {
    TrimEmptyIffBlank(q);
  }

  /** A query with a visible character that contains a listed operator or
      function name passes. */
  lemma PromqlAcceptsListed(q: string, p: string)
    requires exists i :: 0 <= i < |q| && !IsWhitespace(q[i])
    requires p in Operators || p in Functions
    requires Contains(q, p)
    ensures ValidatePromql(q).Ok?
  {
    VisibleNotBlank(q);
    if p in Operators {
      var k :| 0 <= k < |Operators| && Operators[k] == p;
      assert HasOperator(q);
    } else {
      var k :| 0 <= k < |Functions| && Functions[k] == p;
      assert HasFunction(q);
    }
  }

  /** Matching is by raw substring: a minus sign or the letters `sum` anywhere
      in a query with a visible character make it pass, whatever else it holds. */
  lemma PromqlSubstringMatch(a: string, b: string)
    requires exists i :: 0 <= i < |a| && !IsWhitespace(a[i])
    ensures ValidatePromql(a + "-" + b).Ok?
    ensures ValidatePromql(a + "sum" + b).Ok?
  {
    var i :| 0 <= i < |a| && !IsWhitespace(a[i]);
    var minus := a + "-" + b;
    assert minus[i] == a[i];
    ContainsSuffix([], "-");
    ContainsInfix(a, "-", b, "-");
    assert "-" == Operators[1];
    PromqlAcceptsListed(minus, "-");
    var sum := a + "sum" + b;
    assert sum[i] == a[i];
    ContainsSuffix([], "sum");
    ContainsInfix(a, "sum", b, "sum");
    assert "sum" == Functions[0];
    PromqlAcceptsListed(sum, "sum");
  }

  /** The first characters of every operator and function name, and the
      opening brace. */
  const Openers := "+-*/%=!<>{sacmri"

  /** Every operator and function name starts with one of the openers. */
  lemma OpenersStartEveryName()
    ensures forall k :: 0 <= k < |Operators| ==> Operators[k] != [] && Operators[k][0] in Openers
    ensures forall k :: 0 <= k < |Functions| ==> Functions[k] != [] && Functions[k][0] in Openers
  {
  }

  /** A query that holds a visible character and a character outside the
      selector set, and none of the characters any operator, function or
      brace starts with, is refused as unrecognised. */
  lemma PromqlRefusesUnrecognised(q: string)
    requires exists i :: 0 <= i < |q| && !IsWhitespace(q[i])
    requires exists i :: 0 <= i < |q| && !IsSelectorChar(q[i])
    requires forall i :: 0 <= i < |q| ==> q[i] !in Openers
    ensures ValidatePromql(q) == Err(UnrecognisedQueryMessage)
  {
    VisibleNotBlank(q);
    NoOperatorIn(q);
    NoFunctionIn(q);
    NoBraceIn(q);
  }

  lemma NoOperatorIn(q: string)
    requires forall i :: 0 <= i < |q| ==> q[i] !in Openers
    ensures !HasOperator(q)
  {
    OpenersStartEveryName();
    forall k | 0 <= k < |Operators|
      ensures !Contains(q, Operators[k])
    {
      NoCharNoContains(q, Operators[k]);
    }
  }

  lemma NoFunctionIn(q: string)
    requires forall i :: 0 <= i < |q| ==> q[i] !in Openers
    ensures !HasFunction(q)
  {
    OpenersStartEveryName();
    forall k | 0 <= k < |Functions|
      ensures !Contains(q, Functions[k])
    {
      NoCharNoContains(q, Functions[k]);
    }
  }

  lemma NoBraceIn(q: string)
    requires forall i :: 0 <= i < |q| ==> q[i] !in Openers
    ensures !Contains(q, "{")
  {
    BraceOpens();
    forall i | 0 <= i < |q|
      ensures q[i] != '{'
    {
      AbsentFrom(q[i], Openers, 9);
    }
    ContainsChar(q, '{');
    assert "{" == ['{'];
  }

  lemma BraceOpens()
    ensures Openers[9] == '{'
  {
  }

  /** An element absent from a sequence differs from each of its entries. */
  lemma AbsentFrom<T>(x: T, s: seq<T>, k: nat)
    requires k < |s| && x !in s
    ensures x != s[k]
  {
  }

  /** A bare metric name passes through the simple-metric branch. */
  lemma PromqlAcceptsBareName(q: string)
    requires q != [] && forall i :: 0 <= i < |q| ==> IsAlphanumeric(q[i]) || q[i] == '_'
    ensures ValidatePromql(q).Ok?
  {
    assert !IsWhitespace(q[0]);
    TrimEmptyIffBlank(q);
  }

  /** A string does not contain a pattern whose first character it lacks. */
  lemma {:induction false} NoCharNoContains(s: string, p: string)
    requires p != [] && p[0] !in s
    ensures !Contains(s, p)
  {
    if Contains(s, p) {
      ContainsWitness(s, p);
    }
  }

  predicate OccursAt(s: string, p: string, i: int)
  {
    0 <= i <= |s| - |p| && s[i..i + |p|] == p
  }

  /** A contained pattern occurs at some position. */
  lemma {:induction false} ContainsWitness(s: string, p: string)
    requires Contains(s, p)
    ensures exists i :: OccursAt(s, p, i)
    decreases |s|
  {
    if StartsWith(s, p) {
      assert OccursAt(s, p, 0);
    } else {
      ContainsWitness(s[1..], p);
      var i :| OccursAt(s[1..], p, i);
      assert s[i + 1..i + 1 + |p|] == s[1..][i..i + |p|];
      assert OccursAt(s, p, i + 1);
    }
  }

  // ---------------------------------------------------------------------------
  // Query results as CSV

  /** The keys of a label map, in its order. */
  function Keys(labels: seq<(string, string)>): (ks: seq<string>)
    ensures |ks| == |labels|
    ensures forall i :: 0 <= i < |labels| ==> ks[i] == labels[i].0
  {
    if labels == [] then [] else [labels[0].0] + Keys(labels[1..])
  }

  /** The CSV header: `timestamp`, `value`, then the first result's keys. */
  function CsvHeader(first: Api.QueryResult): (h: seq<string>)
    ensures |h| == 2 + |first.metric| && h[..2] == ["timestamp", "value"]
  {
    ["timestamp", "value"] + Keys(first.metric)
  }

  /** The label cells of a row: each header key looked up, `""` when absent. */
  function LabelCells(keys: seq<string>, labels: seq<(string, string)>): (cells: seq<string>)
    ensures |cells| == |keys|
    ensures forall k :: 0 <= k < |keys| ==> cells[k] == UnwrapOr(J.Lookup(labels, keys[k]), "")
  {
    if keys == [] then []
    else LabelCells(keys[..|keys| - 1], labels) + [UnwrapOr(J.Lookup(labels, keys[|keys| - 1]), "")]
  }

  /** `iter().skip(n)`: everything after the first `n` elements. */
  function Skip<T>(xs: seq<T>, n: nat): seq<T>
  {
    if |xs| <= n then [] else xs[n..]
  }

  /** The fields of the row of a result that has a single value: its
      timestamp, its value, and one cell per header key after the first two. */
  function CsvRow(ns: NumberSyntax, header: seq<string>, r: Api.QueryResult): (row: Option<seq<string>>)
    ensures row.Some? <==> r.value.Some?
    ensures row.Some? && |header| >= 2 ==>
              (|row.value| == |header|
               && row.value[0] == ns.show(r.value.value.0) && row.value[1] == r.value.value.1
               && forall k :: 2 <= k < |header| ==>
                    row.value[k] == UnwrapOr(J.Lookup(r.metric, header[k]), ""))
  {
    match r.value
    case Some((t, v)) => Some([ns.show(t), v] + LabelCells(Skip(header, 2), r.metric))
    case None => None
  }

  /** The line of one result: its row joined by commas, when it has a value. */
  function CsvLine(ns: NumberSyntax, header: seq<string>, r: Api.QueryResult): Option<string>
  {
    match CsvRow(ns, header, r)
    case Some(row) => Some(Join(row, ","))
    case None => None
  }

  /** `CsvLine` under one header, as a function of the result. */
  function LineOf(ns: NumberSyntax, header: seq<string>): Api.QueryResult -> Option<string>
  {
    r => CsvLine(ns, header, r)
  }

  /** `format_csv`: nothing for no results; otherwise the header line and one
      line per single-valued result, each line ended by a line break. */
  function CsvText(ns: NumberSyntax, results: seq<Api.QueryResult>): string
  {
    if results == [] then ""
    else
      var header := CsvHeader(results[0]);
      Join(header, ",") + "\n" + Unlines(FilterMap(results, LineOf(ns, header)))
  }

  /** Builds the fields of one row, looking each header key after the first
      two up. */
  method BuildRow(ns: NumberSyntax, header: seq<string>, r: Api.QueryResult) returns (row: seq<string>)
    requires r.value.Some?
    ensures Some(row) == CsvRow(ns, header, r)
  {
    row := [ns.show(r.value.value.0), r.value.value.1];
    var keys := Skip(header, 2);
    for k := 0 to |keys|
      invariant row == [ns.show(r.value.value.0), r.value.value.1] + LabelCells(keys[..k], r.metric)
    {
      LabelCellsStep(keys, r.metric, k);
      row := row + [UnwrapOr(J.Lookup(r.metric, keys[k]), "")];
    }
    assert keys[..|keys|] == keys;
  }

  /** One more key is one more cell at the end. */
  lemma LabelCellsStep(keys: seq<string>, labels: seq<(string, string)>, k: nat)
    requires k < |keys|
    ensures LabelCells(keys[..k + 1], labels) ==
              LabelCells(keys[..k], labels) + [UnwrapOr(J.Lookup(labels, keys[k]), "")]
  {
    assert keys[..k + 1][..k] == keys[..k];
  }

  /** The loop of `format_csv`. */
  method FormatCsv(ns: NumberSyntax, results: seq<Api.QueryResult>) returns (csv: string)
    ensures csv == CsvText(ns, results)
  {
    csv := "";
    if |results| > 0 {
      var header := CsvHeader(results[0]);
      var head := Join(header, ",") + "\n";
      var body := "";
      ghost var lineOf := LineOf(ns, header);
      for i := 0 to |results|
        invariant body == Unlines(FilterMap(results[..i], lineOf))
      {
        UnlinesFilterMapStep(results, lineOf, i);
        if results[i].value.Some? {
          var row := BuildRow(ns, header, results[i]);
          var line := Join(row, ",");
          assert lineOf(results[i]) == Some(line);
          body := body + (line + "\n");
        } else {
          assert lineOf(results[i]) == None;
        }
      }
      assert results[..|results|] == results;
      csv := head + body;
    }
  }

  /** A field that holds no comma, carriage return or line break. */
  predicate IsPlainField(s: string)
  {
    ',' !in s && '\r' !in s && '\n' !in s
  }

  /** A line with no carriage return or line break. */
  predicate IsPlainLine(s: string)
  {
    '\r' !in s && '\n' !in s
  }

  /** Every label key and value, and the sample value, is a plain field. */
  predicate HasPlainFields(r: Api.QueryResult)
  {
    (forall i :: 0 <= i < |r.metric| ==> IsPlainField(r.metric[i].0) && IsPlainField(r.metric[i].1))
    && (r.value.Some? ==> IsPlainField(r.value.value.1))
  }

  /** With results, the output is the header line followed by one line per
      single-valued result, in order, when every printed field is plain. */
  lemma CsvLines(ns: NumberSyntax, results: seq<Api.QueryResult>)
    requires |results| >= 1
    requires forall x :: IsPlainField(ns.show(x))
    requires forall r :: r in results ==> HasPlainFields(r)
    ensures var header := CsvHeader(results[0]);
            Lines(CsvText(ns, results)) == [Join(header, ",")] + FilterMap(results, LineOf(ns, header))
    ensures var header := CsvHeader(results[0]);
            |Lines(CsvText(ns, results))| == 1 + |Kept(results, LineOf(ns, header))|
  {
    var header := CsvHeader(results[0]);
    var lines := FilterMap(results, LineOf(ns, header));
    CsvBodyPlain(ns, header, results);
    HeaderPlain(results[0]);
    var all := [Join(header, ",")] + lines;
    assert all[1..] == lines;
    assert Unlines(all) == CsvText(ns, results);
    CsvLinesRecovered(all);
    FilterMapIsMapOfKept(results, LineOf(ns, header));
  }

  /** The header line of a plain first result is plain. */
  lemma HeaderPlain(first: Api.QueryResult)
    requires HasPlainFields(first)
    ensures IsPlainLine(Join(CsvHeader(first), ","))
  {
    var header := CsvHeader(first);
    assert IsPlainField(header[0]) && IsPlainField(header[1]);
    PlainJoin(header);
  }

  /** Every body line of plain results is plain. */
  lemma CsvBodyPlain(ns: NumberSyntax, header: seq<string>, results: seq<Api.QueryResult>)
    requires forall x :: IsPlainField(ns.show(x))
    requires forall r :: r in results ==> HasPlainFields(r)
    ensures forall j :: 0 <= j < |FilterMap(results, LineOf(ns, header))| ==>
              IsPlainLine(FilterMap(results, LineOf(ns, header))[j])
  {
    var lineOf := LineOf(ns, header);
    FilterMapIsMapOfKept(results, lineOf);
    forall j | 0 <= j < |FilterMap(results, lineOf)|
      ensures IsPlainLine(FilterMap(results, lineOf)[j])
    {
      var r := Kept(results, lineOf)[j];
      KeptMembership(results, lineOf, r);
      CsvLinePlain(ns, header, r);
    }
  }

  /** Each body line splits back into the fields of its result's row, as many
      as the header has, the label cells following the header's keys. */
  lemma CsvRowFields(ns: NumberSyntax, results: seq<Api.QueryResult>, j: nat)
    requires |results| >= 1
    requires forall x :: IsPlainField(ns.show(x))
    requires forall r :: r in results ==> HasPlainFields(r)
    requires j < |Kept(results, LineOf(ns, CsvHeader(results[0])))|
    ensures var header := CsvHeader(results[0]);
            var r := Kept(results, LineOf(ns, header))[j];
            j < |FilterMap(results, LineOf(ns, header))|
            && var fields := Split(FilterMap(results, LineOf(ns, header))[j], ',');
            r.value.Some? && |fields| == |header|
            && fields[0] == ns.show(r.value.value.0) && fields[1] == r.value.value.1
            && forall k :: 2 <= k < |header| ==> fields[k] == UnwrapOr(J.Lookup(r.metric, header[k]), "")
  {
    var header := CsvHeader(results[0]);
    var lineOf := LineOf(ns, header);
    var r := Kept(results, lineOf)[j];
    FilterMapIsMapOfKept(results, lineOf);
    KeptMembership(results, lineOf, r);
    CsvLinePlain(ns, header, r);
  }

  /** The line of a plain single-valued result is plain and splits back into
      its row. */
  lemma CsvLinePlain(ns: NumberSyntax, header: seq<string>, r: Api.QueryResult)
    requires r.value.Some?
    requires forall x :: IsPlainField(ns.show(x))
    requires HasPlainFields(r)
    ensures CsvLine(ns, header, r).Some?
    ensures IsPlainLine(CsvLine(ns, header, r).value)
    ensures Split(CsvLine(ns, header, r).value, ',') == CsvRow(ns, header, r).value
  {
    var row := CsvRow(ns, header, r).value;
    RowFieldsPlain(ns, header, r);
    PlainJoin(row);
    SplitJoin(row, ',');
  }

  /** Plain lines survive `Unlines` followed by `str::lines`. */
  lemma CsvLinesRecovered(all: seq<string>)
    requires forall i :: 0 <= i < |all| ==> IsPlainLine(all[i])
    ensures Lines(Unlines(all)) == all
  {
    forall i | 0 <= i < |all|
      ensures '\n' !in all[i] && (all[i] == [] || all[i][|all[i]| - 1] != '\r')
    {
      assert IsPlainLine(all[i]);
    }
    LinesUnlines(all);
  }

  /** Plain fields joined by commas make a plain line. */
  lemma PlainJoin(fields: seq<string>)
    requires forall c :: 0 <= c < |fields| ==> IsPlainField(fields[c])
    ensures IsPlainLine(Join(fields, ","))
  {
    JoinAvoids(fields, ",", '\r');
    JoinAvoids(fields, ",", '\n');
  }

  /** The fields of a row of a plain result are plain. */
  lemma RowFieldsPlain(ns: NumberSyntax, header: seq<string>, r: Api.QueryResult)
    requires r.value.Some?
    requires forall x :: IsPlainField(ns.show(x))
    requires HasPlainFields(r)
    ensures var row := CsvRow(ns, header, r).value;
            forall c :: 0 <= c < |row| ==> IsPlainField(row[c])
  {
    var keys := Skip(header, 2);
    var cells := LabelCells(keys, r.metric);
    forall c | 0 <= c < |cells|
      ensures IsPlainField(cells[c])
    {
      LookupPlain(r.metric, keys[c]);
    }
    var row := [ns.show(r.value.value.0), r.value.value.1] + cells;
    assert CsvRow(ns, header, r).value == row;
    assert forall c :: 2 <= c < |row| ==> row[c] == cells[c - 2];
  }

  /** A looked-up label of a plain map, or the empty default, is plain. */
  lemma LookupPlain(labels: seq<(string, string)>, key: string)
    requires forall i :: 0 <= i < |labels| ==> IsPlainField(labels[i].1)
    ensures IsPlainField(UnwrapOr(J.Lookup(labels, key), ""))
  {
    var v := J.Lookup(labels, key);
    if v.Some? {
      var i :| 0 <= i < |labels| && labels[i] == (key, v.value);
    }
  }

  // ---------------------------------------------------------------------------
  // Query results as a table

  /** One label as `key=value`. */
  function LabelPair(kv: (string, string)): (text: string)
    ensures |text| == |kv.0| + 1 + |kv.1|
    ensures text[|kv.0|] == '='
  {
    kv.0 + "=" + kv.1
  }

  /** The `key=value` texts of a label map, in its order. */
  function LabelPairs(labels: seq<(string, string)>): (ps: seq<string>)
    ensures |ps| == |labels|
    ensures forall i :: 0 <= i < |labels| ==> ps[i] == LabelPair(labels[i])
  {
    if labels == [] then []
    else LabelPairs(labels[..|labels| - 1]) + [LabelPair(labels[|labels| - 1])]
  }

  /** `format_labels`: the pairs joined by a comma and a space. */
  function LabelText(labels: seq<(string, string)>): string
  {
    Join(LabelPairs(labels), ", ")
  }

  /** The loop of `format_labels`. */
  method FormatLabels(labels: seq<(string, string)>) returns (text: string)
    ensures text == LabelText(labels)
  {
    var formatted: seq<string> := [];
    for i := 0 to |labels|
      invariant formatted == LabelPairs(labels[..i])
    {
      assert labels[..i + 1][..i] == labels[..i];
      formatted := formatted + [labels[i].0 + "=" + labels[i].1];
    }
    assert labels[..|labels|] == labels;
    text := Join(formatted, ", ");
  }

  /** The label text is empty exactly when there are no labels, and it shows
      every label as `key=value`. */
  lemma LabelTextShowsEveryLabel(labels: seq<(string, string)>)
    ensures LabelText(labels) == [] <==> labels == []
    ensures forall i :: 0 <= i < |labels| ==> Contains(LabelText(labels), labels[i].0 + "=" + labels[i].1)
  {
    var ps := LabelPairs(labels);
    JoinEmpty(ps, ", ");
    if |ps| == 1 {
      assert |ps[0]| > 0;
    }
    forall i | 0 <= i < |labels|
      ensures Contains(LabelText(labels), labels[i].0 + "=" + labels[i].1)
    {
      JoinContains(ps, ", ", i);
    }
  }

  /** A row of the table. */
  datatype MetricRow = MetricRow(timestamp: string, value: string, labels: string)

  /** The row of a result that has a single value. */
  function TableRow(ns: NumberSyntax, r: Api.QueryResult): (row: Option<MetricRow>)
    ensures row.Some? <==> r.value.Some?
  {
    match r.value
    case Some((t, v)) => Some(MetricRow(ns.show(t), v, LabelText(r.metric)))
    case None => None
  }

  /** `TableRow` as a function of the result. */
  function RowOf(ns: NumberSyntax): Api.QueryResult -> Option<MetricRow>
  {
    r => TableRow(ns, r)
  }

  const NoDataMessage := "Нет данных для отображения"

  /** `format_table`, with the table renderer `draw` and the colouring of the
      placeholder `warn` passed in. */
  function TableText(ns: NumberSyntax, draw: seq<MetricRow> -> string, warn: string -> string,
                     results: seq<Api.QueryResult>): string
  {
    var rows := FilterMap(results, RowOf(ns));
    if rows == [] then warn(NoDataMessage) else draw(rows)
  }

  /** The loop of `format_table`. */
  method FormatTable(ns: NumberSyntax, draw: seq<MetricRow> -> string, warn: string -> string,
                     results: seq<Api.QueryResult>) returns (text: string)
    ensures text == TableText(ns, draw, warn, results)
  {
    var rows: seq<MetricRow> := [];
    ghost var rowOf := RowOf(ns);
    for i := 0 to |results|
      invariant rows == FilterMap(results[..i], rowOf)
    {
      FilterMapStep(results, rowOf, i);
      match results[i].value {
        case Some((t, v)) =>
          var labels := FormatLabels(results[i].metric);
          rows := rows + [MetricRow(ns.show(t), v, labels)];
        case None =>
      }
    }
    assert results[..|results|] == results;
    if |rows| == 0 {
      text := warn(NoDataMessage);
    } else {
      text := draw(rows);
    }
  }

  /** The table has one row per single-valued result, in input order, showing
      that result's timestamp, value and labels; the placeholder is shown
      exactly when no result has a single value. */
  lemma TableRows(ns: NumberSyntax, results: seq<Api.QueryResult>)
    ensures var rows := FilterMap(results, RowOf(ns));
            var valued := Kept(results, RowOf(ns));
            |rows| == |valued|
            && (forall j :: 0 <= j < |rows| ==>
                  valued[j].value.Some?
                  && rows[j] == MetricRow(ns.show(valued[j].value.value.0), valued[j].value.value.1,
                                          LabelText(valued[j].metric)))
    ensures forall r :: r in Kept(results, RowOf(ns)) <==> r in results && r.value.Some?
  {
    FilterMapIsMapOfKept(results, RowOf(ns));
    forall r
      ensures r in Kept(results, RowOf(ns)) <==> r in results && r.value.Some?
    {
      KeptMembership(results, RowOf(ns), r);
    }
  }

  /** The placeholder is shown exactly when no result has a single value. */
  lemma PlaceholderIffNoValue(ns: NumberSyntax, results: seq<Api.QueryResult>)
    ensures FilterMap(results, RowOf(ns)) == [] <==> forall i :: 0 <= i < |results| ==> results[i].value.None?
  {
    if forall i :: 0 <= i < |results| ==> results[i].value.None? {
      KeptNone(results, RowOf(ns));
    } else {
      var i :| 0 <= i < |results| && results[i].value.Some?;
      KeptMembership(results, RowOf(ns), results[i]);
      FilterMapIsMapOfKept(results, RowOf(ns));
    }
  }
}
