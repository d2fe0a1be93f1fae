# victoria-metrics-cli core, modelled in Dafny

This project models the data-handling core of `victoria-metrics-cli`, a
command-line client for VictoriaMetrics. The model covers five parts:

- **Import** (`import.dfy`, `src/commands/import.rs`). Checks Prometheus
  exposition text line by line, in strict or lenient mode. Converts a
  parsed JSON document or CSV records to exposition lines. Dispatches on
  the import format in `prepare_data`.
- **Export** (`export.dfy`, `src/commands/export.rs`). Chooses the export
  window from `--range`, `--start`/`--end` or the default `1h`. Re-renders
  exported exposition text as JSON records or CSV rows. Dispatches on the
  export format in `format_data`.
- **Utils** (`utils.dfy`, `src/utils.rs`). The symbolic time-range table,
  the PromQL pre-check, and the CSV, table and label formatters for query
  results.
- **Api** (`api.dfy`, `src/api.rs`). Where every request of the client
  goes: endpoint rewriting for a cluster in select mode, the vminsert and
  vmstorage hosts, snapshot URLs, and reading the snapshot list.
- **Debug** (`debug.dfy`, `src/commands/debug.rs`, `analyze_metrics`). The
  pattern filter, the first-20 listing with its "and N more" count, the
  per-prefix histogram and its top ten sorted by count, and the text
  written to the export file.

Supporting modules:

- `text.dfy` gives the Rust `str` operations the core relies on, with
  their edge cases: `lines` (including the `\r\n` rule), `trim` (Unicode
  White_Space), `split_once`, `rsplit_once`, `split`, `join`, `contains`,
  `strip_suffix` and `trim_matches`.
- `numbers.dfy` gives a double (finite value, ±infinity, NaN), the
  saturating `as i64` cast, and decimal printing of integers. Parsing and
  printing doubles are collaborators passed in as a `NumberSyntax` value,
  and the model is generic over it. Some lemmas assume facts about the
  chosen parser and printer, stated as `requires`:
  - the parser accepts every printed integer: `Import.ExpositionLineValid`,
    `Import.JsonLineIsValidExposition`, `Import.LabelledMetricValid`;
  - the printer never writes `\n`: `Import.JsonOutputLines`,
    `Import.CsvOutputLines`;
  - the printer writes plain CSV fields (no comma, `\r` or `\n`):
    `Utils.CsvLines`, `Utils.CsvRowFields` and their helpers.
- `json.dfy` gives a JSON value with the serde accessors the core uses.
  An object is a sequence of members, and iterating over it follows that
  sequence. A `serde_json::Map` iterates in key order (or in insertion
  order with serde_json's `preserve_order` feature); the model uses
  whatever order the JSON parser passed in delivers.
- A `HashMap` (query-result labels, the export label map, the prefix
  histogram) is a sequence of entries. Its iteration order is the order of
  that sequence, so results hold for every such order. The maps the model
  builds itself (the export label map, the prefix histogram) are proved to
  keep their keys distinct; for parsed JSON objects and query-result labels
  distinct keys are expected of the parser passed in, not enforced.
- `errors.dfy` gives the `VmCliError` variants.
- `wrappers.dfy` gives `Option`, `Result` and the filter-map used by every
  loop that keeps some items.

Loops in the source are methods with loop invariants. Each is proved equal
to a specification function, and the lemmas beside it prove what the
function means.

What the source does that a reader may not expect:

- **Export records are never produced.** The JSON and CSV branches of
  `format_data` split a line at its last space, then split the tail again
  at a space. The tail never holds a space, so no line yields a record.
  The JSON branch therefore always serialises an empty array, and the CSV
  branch is always the bare header (`Export.NoSample`,
  `Export.FormattedDataOutcomes`).
- **The timestamp branch of the exposition check is dead.** For the same
  reason, `is_valid_prometheus_line` looks only at the token after the
  last space (`Import.ValidLineCharacterization`).
- **Quotes are stripped in any number.** `trim_matches('"')` removes
  every leading and trailing quote, not one pair. The label round trip
  (`Export.LabelBlockRecovered`) is proved for values that neither start
  nor end with a quote.
- **CSV of no results is empty.** `format_csv` of an empty result set
  gives the empty string, not a header row.

## Model

| member | source | states |
|---|---|---|
| Import.ValidLineCharacterization | src/commands/import.rs:140-156 | A line passes exactly when it has a space, the token after its last space parses as f64, and a `{` before that space has a `}` there; the two-number branch is never taken |
| Import.FirstBad | src/commands/import.rs:101-116 | The index of the first checked line that fails, or -1 exactly when none fails |
| Import.BadLinesMembership | src/commands/import.rs:118-123 | A lenient-mode warning names line n with text t exactly when line n is bad and t is its trimmed text |
| Import.NoWarningsIffNoBadLine | src/commands/import.rs:109-125 | There are no warnings exactly when no line is bad |
| Import.SkippedLinesNeverReported | src/commands/import.rs:103-107 | Blank and comment lines are never the rejected line and never warned about, in either mode |
| Import.ScanRejectedIff | src/commands/import.rs:109-116 | A scan is rejected exactly in strict mode when some line is bad |
| Import.ValidatePrometheusFormat | src/commands/import.rs:97-138 | The loop stops at the first bad line in strict mode; otherwise it counts every line and warns once per bad line, in order, with the error count equal to the number of warnings |
| Import.ExpositionLineShape | src/commands/import.rs:188 | An emitted line ends in a digit and holds a line break only if the metric text or printed value does |
| Import.ExpositionLineValid | src/commands/import.rs:188 | Once trimmed, an emitted line passes the exposition check when the metric text ends visibly, its braces are closed and integers parse |
| Import.ConvertJsonToPrometheus | src/commands/import.rs:158-197 | The item loop yields the lines of the usable items in order; a document that is not an array yields nothing |
| Import.JsonOutputLines | src/commands/import.rs:164-193 | Reading the output back gives one line per usable item, in item order |
| Import.JsonLineIsValidExposition | src/commands/import.rs:170-188 | The line of a record with labels passes the exposition check once trimmed |
| Import.RecordLine | src/commands/import.rs:206-213 | A record gives a line exactly when it has at least three fields and its first two parse as f64, and that line is the name, the parsed value and the truncated timestamp |
| Import.ConvertCsvToPrometheus | src/commands/import.rs:199-218 | The record loop yields the lines of the usable records in order |
| Import.CsvOutputLines | src/commands/import.rs:203-215 | A record contributes exactly when it has at least three fields and its first two parse; lines come back one per such record, in order |
| Import.PrepareData | src/commands/import.rs:82-95 | Exposition text passes through unless strict mode rejects a line; JSON and CSV input is converted; parse failures are `JsonError`/`CsvError` |
| Export.WindowPrecedence | src/commands/export.rs:86-96 | A range token wins and gives the window ending now or `TimeParseError`; otherwise start and end are used as given; otherwise the last hour |
| Export.NoSample | src/commands/export.rs:110-134 | No line ever yields a sample, because the tail after the last space holds no space |
| Export.Insert | src/commands/export.rs:114-125 | After `insert` the key maps to the new value and the map grows by at most one entry |
| Export.InsertKeepsOthers | src/commands/export.rs:120 | Inserting one key leaves every other key as it was |
| Export.InsertDistinct | src/commands/export.rs:120 | Inserting keeps the keys distinct |
| Export.InsertAllLookup | src/commands/export.rs:117-122 | After inserting entries in turn, a key holds the value of its last entry, or its old value when no entry has it |
| Export.ExtractMetricInfo | src/commands/export.rs:111-126 | The label loop builds the metric map of the metric part |
| Export.MetricInfoLookup | src/commands/export.rs:113-126 | `__name__` is always present, with the metric name unless a label overrides it; every other key has its last label value; keys are distinct |
| Export.QuotedPairRecovered | src/commands/export.rs:118-119 | A `key="value"` piece reads back as its key and value |
| Export.LabelBlockRecovered | src/commands/export.rs:113-123 | A metric part written as `name{k="v",...}` reads back as the name and every label, in order |
| Export.NoJsonRecords | src/commands/export.rs:105-136 | The JSON branch collects no record for any input |
| Export.LineRecord | src/commands/export.rs:106-134 | No line gives a record: the result is always `None` |
| Export.CollectJsonRecords | src/commands/export.rs:102-136 | The record loop collects the records of the lines, in order |
| Export.CsvExportIsHeader | src/commands/export.rs:141-165 | The CSV branch is the bare header for any input |
| Export.LineRow | src/commands/export.rs:147-160 | No line gives a row: the result is always `None` |
| Export.ExportCsv | src/commands/export.rs:142-164 | The row loop gives the header followed by the row of each line, in order |
| Export.FormatData | src/commands/export.rs:98-167 | Dispatch on the format matches the three outcomes |
| Export.FormattedDataOutcomes | src/commands/export.rs:98-167 | Prometheus gives the text unchanged, JSON the serialised empty array or `JsonError`, CSV the header |
| Utils.TimeRangeWindow | src/utils.rs:137-163 | For a known token the window's end reads back as `now` and its start as `now` minus the token's seconds, and any other token gives exactly the error message followed by the token |
| Utils.PromqlCharacterization | src/utils.rs:165-187 | A query is refused as empty exactly when blank; otherwise it passes exactly when it has an operator, a function name, a `{`, or only selector characters |
| Utils.PromqlAcceptsListed | src/utils.rs:172-177 | A visible query containing any listed operator or function name passes |
| Utils.PromqlSubstringMatch | src/utils.rs:173-177 | Matching is by raw substring: a `-` or `sum` anywhere makes a query pass |
| Utils.PromqlRefusesUnrecognised | src/utils.rs:182-184 | A visible query with no opener character and a non-selector character is refused with the second message |
| Utils.PromqlAcceptsBareName | src/utils.rs:180 | A bare metric name passes |
| Utils.FormatCsv | src/utils.rs:25-49 | The loop builds the CSV text of the results |
| Utils.CsvLines | src/utils.rs:29-46 | With results, the output is the header line of the first result's keys, then one line per single-valued result in order, each splitting back into its fields |
| Utils.CsvRowFields | src/utils.rs:37-43 | Each body line splits back into its result's timestamp, value, and then each header key looked up, `""` when absent |
| Utils.BuildRow | src/utils.rs:38-41 | The row loop gives the fields of the row |
| Utils.FormatLabels | src/utils.rs:80-86 | The loop gives the `key=value` pairs joined by `, ` |
| Utils.LabelTextShowsEveryLabel | src/utils.rs:80-86 | The label text is empty exactly when there are no labels, and it contains every `key=value` |
| Utils.TableRow | src/utils.rs:63-69 | A result has a row exactly when it has a single value |
| Utils.FormatTable | src/utils.rs:59-78 | The loop builds the table, or the placeholder when no row was kept |
| Utils.TableRows | src/utils.rs:62-71 | Rows are made from exactly the single-valued results, in input order |
| Utils.PlaceholderIffNoValue | src/utils.rs:73-75 | The placeholder is shown exactly when no result has a single value |
| Api.EndpointRouting | src/api.rs:88-103 | Without a cluster the path is kept; in select mode an `/api/` path becomes `/select/` + the account id + `/prometheus` + the path, and any other path is kept; outside select mode the result is the query endpoint |
| Api.NonSelectClusterIgnoresPath | src/api.rs:98-100 | Outside select mode every path routes to the same query endpoint |
| Api.InsertHost | src/api.rs:106-111 | The vminsert host when configured, otherwise the base URL |
| Api.StorageHost | src/api.rs:124-129 | The vmstorage host when configured, otherwise the base URL |
| Api.SnapshotUrlAgreesWithStorageHost | src/api.rs:348-361 | A snapshot URL fails exactly for a cluster without a storage host, with `ApiError`; otherwise it is that host or the base URL plus `/snapshot/<op>` |
| Api.FixedPathsIgnoreCluster | src/api.rs:258-577 | Delete-series, export, import, retention, flags and build-info requests go to the base URL plus their own path, whatever the cluster |
| Api.SingleNodeUsesDefaultPaths | src/api.rs:142-239 | Without a cluster every request goes to the base URL plus its own path |
| Api.ListSnapshotInfos | src/api.rs:417-433 | The loop gives the snapshot list of the response |
| Api.SnapshotListShape | src/api.rs:417-433 | No `snapshots` array lists nothing; otherwise the list has one entry per object in the array, in order, whose name, created_at, size and status are that object's string fields or `""` |
| Api.SnapshotListOfObjects | src/api.rs:419-428 | An array made only of objects loses no entry |
| Debug.MatchingMembership | src/commands/debug.rs:286-291 | A name is kept exactly when it is listed and contains the pattern |
| Debug.MatchingConcat | src/commands/debug.rs:287-291 | Filtering keeps order: the filter of a concatenation is the concatenation of the filters |
| Debug.MatchingEmptyPattern | src/commands/debug.rs:290 | The empty pattern keeps every name |
| Debug.FilterMetrics | src/commands/debug.rs:287-291 | The loop gives the matching names |
| Debug.ShownAndRemainder | src/commands/debug.rs:294-299 | The shown names and the "and N more" count add up to the number of names; the count appears exactly when names are hidden |
| Debug.PrefixShape | src/commands/debug.rs:307 | The prefix holds no `_`; it is the whole name without `_`, and otherwise the name is the prefix, `_` and the rest |
| Debug.LeadingUnderscore | src/commands/debug.rs:307 | A name starting with `_` has the empty prefix |
| Debug.BumpLookup | src/commands/debug.rs:308 | Counting a prefix adds one to it (from zero when new) and leaves every other prefix |
| Debug.HistogramCounts | src/commands/debug.rs:305-310 | Each occurring prefix maps to the number of names with that prefix; no other prefix is present |
| Debug.HistogramInvariants | src/commands/debug.rs:305-310 | Counts are positive, prefixes are distinct, and the counts add up to the number of names |
| Debug.PrefixHistogram | src/commands/debug.rs:305-310 | The counting loop gives the histogram |
| Debug.SortByCount | src/commands/debug.rs:313-314 | In-place sort: counts never increase, and the elements are a permutation of the old ones |
| Debug.TopPrefixes | src/commands/debug.rs:313-318 | The top is the first ten (or fewer) entries of the histogram sorted by count: sorted, a sub-multiset of the histogram, none counting less than an entry left out |
| Debug.ExportContentRecovered | src/commands/debug.rs:329 | Names without line breaks are recovered by splitting the exported text at line breaks |
| Debug.AnalyzeMetrics | src/commands/debug.rs:286-331 | A pattern wins over `--stats`, which wins over the plain listing; the stats top is a sorted sub-multiset of the histogram as for TopPrefixes; the export text is the names joined by line breaks exactly when a path is given |
| Text.LinesUnlines | src/commands/import.rs:188 | Lines ending in a visible character and joined with line breaks are read back one for one by `str::lines` |
| Text.SplitJoin | src/commands/debug.rs:329 | Joining pieces without the separator and splitting at it gives the pieces back |
| Text.TrimEmptyIffBlank | src/utils.rs:167 | A string trims to nothing exactly when every character is whitespace |
| Text.TrimMatchesWrapped | src/commands/export.rs:119 | `trim_matches` removes any run of the character at both ends of a value that neither starts nor ends with it |
| Numbers.AsI64 | src/commands/import.rs:188 | `as i64` truncates toward zero, saturates at the bounds and maps NaN to 0 |
| Numbers.IntDecimalRoundTrip | src/commands/import.rs:188 | A printed integer parses back to itself |
| Numbers.IntDecimalInjective | src/commands/import.rs:188 | Distinct integers print differently |

## Left out

- HTTP transport, configuration loading and `main`: requests are modelled by the URL they go to (`Api.RequestUrl`), not sent.
- The `admin` command: its retention, snapshot and mode handlers print fixed simulated text and send no request; its delete handler sends one `delete_series` request after the `--confirm` check.
- The `health` and `query` commands: they print the results of their requests (`health` makes up to three: health, an `up` query and the metrics endpoint). The formatting they call is modelled in Utils.
- `slow_queries`, `gaps`, `memory` and `performance` in the debug command: they print fixed simulated data or time requests with the clock.
- The clock: `parse_time_range` and `determine_time_range` take the current Unix time as a parameter.
- File I/O: reading the import file, `save_to_file`, and `std::fs::write` of the debug export. The model gives the text that would be written.
- The progress bar, colours, `println!` and `eprintln!` output. The lenient-mode warnings and the strict-mode error text are modelled as data.
- Floating-point printing and parsing: `f64` Display and `str::parse::<f64>` are the `NumberSyntax` parameter. `format_uptime`, `format_bytes` and `format_percentage` are not modelled, because they are floating-point formatting only.
- serde_json and the csv crate: parsing, pretty printing and record tokenising are parameters that return `None` on failure. `format_json` and `format_yaml` serialise with serde and are not modelled; `format_output` only dispatches to them.
- `tabled` rendering: the table renderer is a parameter of `Utils.FormatTable`.
- `format_health_status`: it only picks a colour.
- Utils.IsAlphanumeric: covers ASCII letters and digits only, not the rest of Unicode's alphabetic and numeric characters.
- Debug.SortByCount: does not model the stability of `sort_by`. The input comes in `HashMap` order, which is arbitrary, so the order of equal counts is not determined by the source either.
- `HashMap` iteration order: label maps and the prefix histogram are sequences in insertion order. Properties that mention order hold for that order.
- Duplicate JSON keys: `JsonValue.Lookup` returns the first member with a key, while serde_json keeps the last value given for it. Results agree with the source only when the parser passed in delivers each key once, as a `serde_json::Map` holds it.
- JSON object order: the label order written by `convert_json_to_prometheus` matches the source only when the JSON parser passed in delivers object members in `serde_json::Map`'s iteration order (by key, or by insertion with `preserve_order`).
