/** src/commands/debug.rs, `analyze_metrics`: the pattern filter, the first
    twenty names, the prefix statistics and the exported name list. The
    name list is what the metrics endpoint returned. */
module Debug {
  import opened Wrappers
  import opened Text
  import J = JsonValue

  // ---------------------------------------------------------------------------
  // The pattern filter

  /** The names that contain `pattern`, in their order. */
  function Matching(names: seq<string>, pattern: string): (r: seq<string>)
    ensures |r| <= |names|
  {
    if names == [] then []
    else
      var last := names[|names| - 1];
      Matching(names[..|names| - 1], pattern) + (if Contains(last, pattern) then [last] else [])
  }

  /** A name is kept exactly when it is listed and contains the pattern. */
  lemma {:induction false} MatchingMembership(names: seq<string>, pattern: string, x: string)
    ensures x in Matching(names, pattern) <==> x in names && Contains(x, pattern)
  {
    if names != [] {
      MatchingMembership(names[..|names| - 1], pattern, x);
      assert names == names[..|names| - 1] + [names[|names| - 1]];
    }
  }

  /** Filtering keeps order: the filter of a concatenation is the
      concatenation of the filters. */
  lemma {:induction false} MatchingConcat(a: seq<string>, b: seq<string>, pattern: string)
    ensures Matching(a + b, pattern) == Matching(a, pattern) + Matching(b, pattern)
  {
    if b == [] {
      assert a + b == a;
    } else {
      var init := b[..|b| - 1];
      MatchingConcat(a, init, pattern);
      assert (a + b)[..|a + b| - 1] == a + init;
    }
  }

  /** Every string contains the empty pattern, so it keeps every name. */
  lemma {:induction false} MatchingEmptyPattern(names: seq<string>)
    ensures Matching(names, "") == names
  {
    if names != [] {
      MatchingEmptyPattern(names[..|names| - 1]);
      assert StartsWith(names[|names| - 1], "");
    }
  }

  /** The `filter(|m| m.contains(pattern))` chain as a loop. */
  method FilterMetrics(names: seq<string>, pattern: string) returns (filtered: seq<string>)
    ensures filtered == Matching(names, pattern)
  {
    filtered := [];
    for i := 0 to |names|
      invariant filtered == Matching(names[..i], pattern)
    {
      assert names[..i + 1][..i] == names[..i];
      if Contains(names[i], pattern) {
        filtered := filtered + [names[i]];
      }
    }
    assert names[..|names|] == names;
  }

  // ---------------------------------------------------------------------------
  // The first names

  /** How many names are printed. */
  const ShownLimit: nat := 20

  /** `iter().take(n)`. */
  function Take<T>(xs: seq<T>, n: nat): (r: seq<T>)
    ensures |r| == if |xs| < n then |xs| else n
    ensures r == xs[..|r|]
  {
    if |xs| <= n then xs else xs[..n]
  }

  /** The "and N more" count printed after the shown names, when there is one. */
  function Remainder(count: nat): (more: Option<nat>)
    ensures more.Some? <==> count > ShownLimit
    ensures more.Some? ==> more.value + ShownLimit == count
  {
    if count > ShownLimit then Some(count - ShownLimit) else None
  }

  /** The shown names and the remainder account for every name. */
  lemma ShownAndRemainder<T>(xs: seq<T>)
    ensures |Take(xs, ShownLimit)| + UnwrapOr(Remainder(|xs|), 0) == |xs|
    ensures Remainder(|xs|).Some? <==> |Take(xs, ShownLimit)| < |xs|
  {
  }

  // ---------------------------------------------------------------------------
  // Prefixes

  /** `split('_').next()`: the text before the first `_`, or the whole name. */
  function Prefix(name: string): string
  {
    Split(name, '_')[0]
  }

  /** The prefix holds no `_`; it is the whole name when there is no `_`, and
      otherwise the name is the prefix, a `_` and the rest. */
  lemma PrefixShape(name: string)
    ensures '_' !in Prefix(name)
    ensures '_' !in name ==> Prefix(name) == name
    ensures '_' in name ==> name == Prefix(name) + "_" + name[|Prefix(name)| + 1..]
  {
    SplitOnceParts(name, '_');
  }

  /** A name that starts with `_` has the empty prefix. */
  lemma LeadingUnderscore(rest: string)
    ensures Prefix("_" + rest) == ""
  {
    var name := "_" + rest;
    PrefixShape(name);
    assert name[0] == '_';
    assert '_' in name;
  }

  // ---------------------------------------------------------------------------
  // The prefix histogram

  /** `*prefixes.entry(p).or_insert(0) += 1` on a map kept as entries in its
      iteration order: a present prefix is incremented in place, a new one
      is added at the end with count 1. */
  function Bump(h: seq<(string, nat)>, p: string): (r: seq<(string, nat)>)
    ensures |r| == |h| || |r| == |h| + 1
  {
    if h == [] then [(p, 1)]
    else if h[0].0 == p then [(p, h[0].1 + 1)] + h[1..]
    else [h[0]] + Bump(h[1..], p)
  }

  /** The histogram after counting every name. */
  function Histogram(names: seq<string>): seq<(string, nat)>
  {
    if names == [] then [] else Bump(Histogram(names[..|names| - 1]), Prefix(names[|names| - 1]))
  }

  /** How many names have prefix `p`. */
  function CountPrefix(names: seq<string>, p: string): nat
  {
    if names == [] then 0
    else CountPrefix(names[..|names| - 1], p) + (if Prefix(names[|names| - 1]) == p then 1 else 0)
  }

  /** The sum of the counts. */
  function Total(h: seq<(string, nat)>): nat
  {
    if h == [] then 0 else h[0].1 + Total(h[1..])
  }

  /** Every count is positive. */
  predicate Positive(h: seq<(string, nat)>)
  {
    forall i :: 0 <= i < |h| ==> h[i].1 > 0
  }

  /** Bumping adds one to the bumped prefix and leaves every other one. */
  lemma {:induction false} BumpLookup(h: seq<(string, nat)>, p: string, q: string)
    ensures J.Lookup(Bump(h, p), q) ==
              if q == p then Some(UnwrapOr(J.Lookup(h, p), 0) + 1) else J.Lookup(h, q)
  {
    if h != [] && h[0].0 != p {
      BumpLookup(h[1..], p, q);
    }
  }

  /** Bumping adds one to the total. */
  lemma {:induction false} BumpTotal(h: seq<(string, nat)>, p: string)
    ensures Total(Bump(h, p)) == Total(h) + 1
  {
    if h != [] && h[0].0 != p {
      BumpTotal(h[1..], p);
    }
  }

  /** Bumping keeps every count positive. */
  lemma {:induction false} BumpPositive(h: seq<(string, nat)>, p: string)
    requires Positive(h)
    ensures Positive(Bump(h, p))
  {
    if h != [] && h[0].0 != p {
      BumpPositive(h[1..], p);
      var r := Bump(h, p);
      assert forall i :: 0 < i < |r| ==> r[i] == Bump(h[1..], p)[i - 1];
    }
  }

  /** The keys after bumping are the keys before and the bumped prefix. */
  lemma {:induction false} BumpKeys(h: seq<(string, nat)>, p: string)
    ensures forall e :: e in Bump(h, p) ==> e.0 == p || exists f :: f in h && f.0 == e.0
  {
    if h != [] && h[0].0 != p {
      BumpKeys(h[1..], p);
      forall e | e in Bump(h, p)
        ensures e.0 == p || exists f :: f in h && f.0 == e.0
      {
        if e != h[0] {
          assert e in Bump(h[1..], p);
          if e.0 != p {
            var f :| f in h[1..] && f.0 == e.0;
            assert f in h;
          }
        }
      }
    }
  }

  /** Bumping keeps the prefixes distinct. */
  lemma {:induction false} BumpDistinct(h: seq<(string, nat)>, p: string)
    requires J.DistinctKeys(h)
    ensures J.DistinctKeys(Bump(h, p))
  {
    if h == [] {
    } else if h[0].0 == p {
      var r := Bump(h, p);
      assert forall i :: 0 < i < |r| ==> r[i] == h[i];
    } else {
      var rest := Bump(h[1..], p);
      BumpDistinct(h[1..], p);
      BumpKeys(h[1..], p);
      var r := [h[0]] + rest;
      forall j | 0 < j < |r|
        ensures r[0].0 != r[j].0
      {
        assert r[j] in rest;
        if r[j].0 != p {
          var f :| f in h[1..] && f.0 == r[j].0;
          var k :| 0 <= k < |h[1..]| && h[1..][k] == f;
          assert h[k + 1] == f;
        }
      }
    }
  }

  /** The histogram holds each prefix that occurs, with the number of names
      that have it, and no other prefix. */
  lemma {:induction false} HistogramCounts(names: seq<string>, p: string)
    ensures J.Lookup(Histogram(names), p) ==
              if CountPrefix(names, p) > 0 then Some(CountPrefix(names, p)) else None
  {
    if names != [] {
      var init := names[..|names| - 1];
      HistogramCounts(init, p);
      BumpLookup(Histogram(init), Prefix(names[|names| - 1]), p);
    }
  }

  /** The counts are positive, the prefixes distinct, and the counts add up
      to the number of names. */
  lemma {:induction false} HistogramInvariants(names: seq<string>)
    ensures Positive(Histogram(names))
    ensures J.DistinctKeys(Histogram(names))
    ensures Total(Histogram(names)) == |names|
  {
    if names != [] {
      var init := names[..|names| - 1];
      var p := Prefix(names[|names| - 1]);
      HistogramInvariants(init);
      BumpPositive(Histogram(init), p);
      BumpDistinct(Histogram(init), p);
      BumpTotal(Histogram(init), p);
    }
  }

  /** The counting loop over the names. */
  method PrefixHistogram(names: seq<string>) returns (h: seq<(string, nat)>)
    ensures h == Histogram(names)
  {
    h := [];
    for i := 0 to |names|
      invariant h == Histogram(names[..i])
    {
      assert names[..i + 1][..i] == names[..i];
      var prefix := Split(names[i], '_')[0];
      h := Bump(h, prefix);
    }
    assert names[..|names|] == names;
  }

  // ---------------------------------------------------------------------------
  // Sorting by count

  /** Counts never increase from left to right. */
  predicate SortedByCount(s: seq<(string, nat)>)
  {
    forall x, y :: 0 <= x < y < |s| ==> s[x].1 >= s[y].1
  }

  /** Counts never increase between `lo` and `hi`. */
  predicate SortedBetween(s: seq<(string, nat)>, lo: int, hi: int)
    requires 0 <= lo <= hi <= |s|
  {
    forall x, y :: lo <= x < y < hi ==> s[x].1 >= s[y].1
  }

  /** Everything before `j` counts at least as much as everything in `(j, hi)`. */
  predicate AboveAcross(s: seq<(string, nat)>, j: int, hi: int)
    requires 0 <= j < hi <= |s|
  {
    forall x, y :: 0 <= x < j < y < hi ==> s[x].1 >= s[y].1
  }

  /** Exchanging a smaller count with the larger one after it moves the gap
      one place left and keeps both sorted runs and the order across them. */
  lemma SwapStep(s: seq<(string, nat)>, t: seq<(string, nat)>, j: int, i: int)
    requires 0 < j <= i < |s| && s[j - 1].1 < s[j].1
    requires t == s[j - 1 := s[j]][j := s[j - 1]]
    requires SortedBetween(s, 0, j) && SortedBetween(s, j, i + 1) && AboveAcross(s, j, i + 1)
    ensures SortedBetween(t, 0, j - 1) && SortedBetween(t, j - 1, i + 1) && AboveAcross(t, j - 1, i + 1)
    ensures multiset(t) == multiset(s)
  {
  }

  /** When the inserted count has reached its place, the whole run is sorted. */
  lemma InsertionDone(s: seq<(string, nat)>, j: int, i: int)
    requires 0 <= j <= i < |s| && (j == 0 || s[j - 1].1 >= s[j].1)
    requires SortedBetween(s, 0, j) && SortedBetween(s, j, i + 1) && AboveAcross(s, j, i + 1)
    ensures SortedBetween(s, 0, i + 1)
  {
  }

  /** `sort_by(|a, b| b.1.cmp(a.1))`, in place: by count, largest first
      (an insertion sort). */
  method SortByCount(a: array<(string, nat)>)
    modifies a
    ensures SortedByCount(a[..])
    ensures multiset(a[..]) == multiset(old(a[..]))
  {
    var i := 0;
    while i < a.Length
      invariant 0 <= i <= a.Length
      invariant SortedBetween(a[..], 0, i)
      invariant multiset(a[..]) == multiset(old(a[..]))
    {
      var j := i;
      while j > 0 && a[j - 1].1 < a[j].1
        invariant 0 <= j <= i
        invariant SortedBetween(a[..], 0, j)
        invariant SortedBetween(a[..], j, i + 1)
        invariant AboveAcross(a[..], j, i + 1)
        invariant multiset(a[..]) == multiset(old(a[..]))
      {
        ghost var s := a[..];
        a[j - 1], a[j] := a[j], a[j - 1];
        SwapStep(s, a[..], j, i);
        j := j - 1;
      }
      InsertionDone(a[..], j, i);
      i := i + 1;
    }
  }

  /** A prefix of a sequence is a sub-multiset of it. */
  lemma PrefixSubMultiset<T>(s: seq<T>, n: nat)
    requires n <= |s|
    ensures multiset(s[..n]) <= multiset(s)
  {
    assert s == s[..n] + s[n..];
  }

  /** How many prefixes are listed. */
  const TopLimit: nat := 10

  /** The listed prefixes: the histogram sorted by count, then the first ten. */
  method TopPrefixes(names: seq<string>) returns (top: seq<(string, nat)>)
    ensures |top| == if |Histogram(names)| < TopLimit then |Histogram(names)| else TopLimit
    ensures SortedByCount(top)
    ensures forall e :: e in top ==> e in Histogram(names)
    ensures forall e, f :: e in top && f in Histogram(names) && f !in top ==> e.1 >= f.1
    ensures multiset(top) <= multiset(Histogram(names))
  {
    var h := PrefixHistogram(names);
    var a := new (string, nat)[|h|](i requires 0 <= i < |h| => h[i]);
    assert a[..] == h;
    SortByCount(a);
    var sorted := a[..];
    top := Take(sorted, TopLimit);
    PrefixSubMultiset(sorted, |top|);
    TopFromHistogram(h, sorted, |top|);
    TopAbove(h, sorted, |top|);
  }

  /** The first `n` entries of a permutation of `h` all come from `h`. */
  lemma TopFromHistogram(h: seq<(string, nat)>, sorted: seq<(string, nat)>, n: nat)
    requires multiset(sorted) == multiset(h) && n <= |sorted|
    ensures forall e :: e in sorted[..n] ==> e in h
  {
    forall e | e in sorted[..n]
      ensures e in h
    {
      assert e in multiset(sorted);
    }
  }

  /** The first `n` entries of a sorted permutation of `h` count at least as
      much as every entry of `h` left out. */
  lemma TopAbove(h: seq<(string, nat)>, sorted: seq<(string, nat)>, n: nat)
    requires multiset(sorted) == multiset(h) && SortedByCount(sorted) && n <= |sorted|
    ensures forall e, f :: e in sorted[..n] && f in h && f !in sorted[..n] ==> e.1 >= f.1
  {
    var top := sorted[..n];
    forall e, f | e in top && f in h && f !in top
      ensures e.1 >= f.1
    {
      assert f in multiset(sorted);
      var x :| 0 <= x < |top| && top[x] == e;
      var y :| 0 <= y < |sorted| && sorted[y] == f;
      assert y >= |top|;
    }
  }

  // ---------------------------------------------------------------------------
  // The whole command

  /** What `analyze_metrics` prints, as data. */
  datatype Report =
    | PatternReport(matched: nat, shown: seq<string>, more: Option<nat>)
    | StatsReport(total: nat, top: seq<(string, nat)>)
    | ListReport(total: nat, shown: seq<string>)

  /** The text written to the export file: the names joined by line breaks. */
  function ExportContent(names: seq<string>): string
  {
    Join(names, "\n")
  }

  /** Names without line breaks are read back by splitting the exported text
      at line breaks, and the text ends without a line break after a last
      name that is not empty. */
  lemma ExportContentRecovered(names: seq<string>)
    requires |names| >= 1
    requires forall i :: 0 <= i < |names| ==> '\n' !in names[i]
    ensures Split(ExportContent(names), '\n') == names
  {
    assert "\n" == ['\n'];
    SplitJoin(names, '\n');
  }

  /** `analyze_metrics` on the fetched names: a pattern wins over `stats`;
      the export content is produced whenever an export path is given. */
  method AnalyzeMetrics(names: seq<string>, pattern: Option<string>, stats: bool, exportPath: bool)
    returns (report: Report, content: Option<string>)
    ensures pattern.Some? ==>
              report == PatternReport(|Matching(names, pattern.value)|,
                                      Take(Matching(names, pattern.value), ShownLimit),
                                      Remainder(|Matching(names, pattern.value)|))
    ensures pattern.None? && stats ==>
              report.StatsReport? && report.total == |names|
              && |report.top| == (if |Histogram(names)| < TopLimit then |Histogram(names)| else TopLimit)
              && SortedByCount(report.top)
              && (forall e :: e in report.top ==> e in Histogram(names))
              && (forall e, f :: e in report.top && f in Histogram(names) && f !in report.top ==> e.1 >= f.1)
              && multiset(report.top) <= multiset(Histogram(names))
    ensures pattern.None? && !stats ==> report == ListReport(|names|, Take(names, ShownLimit))
    ensures content == if exportPath then Some(ExportContent(names)) else None
  {
    if pattern.Some? {
      var filtered := FilterMetrics(names, pattern.value);
      var more: Option<nat> := None;
      if |filtered| > 20 {
        more := Some(|filtered| - 20);
      }
      report := PatternReport(|filtered|, Take(filtered, 20), more);
    } else if stats {
      var top := TopPrefixes(names);
      report := StatsReport(|names|, top);
    } else {
      report := ListReport(|names|, Take(names, 20));
    }
    content := None;
    if exportPath {
      content := Some(Join(names, "\n"));
    }
  }
}
