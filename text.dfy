/** The `str` operations of Rust's standard library that the core relies on,
    with the same edge cases: `lines`, `trim`, `split_once`, `rsplit_once`,
    `split`, `join`, `contains`, `strip_suffix` and `trim_matches`. */
module Text {
  import opened Wrappers

  /** Characters with the Unicode White_Space property: what `str::trim` removes. */
  predicate IsWhitespace(c: char)
  {
    c == ' ' || '\t' <= c <= '\r' || c == '\U{85}' || c == '\U{A0}' || c == '\U{1680}'
    || '\U{2000}' <= c <= '\U{200A}' || c == '\U{2028}' || c == '\U{2029}'
    || c == '\U{202F}' || c == '\U{205F}' || c == '\U{3000}'
  }

  function TrimStart(s: string): (r: string)
    ensures |r| <= |s| && r == s[|s| - |r|..]
    ensures r == [] || !IsWhitespace(r[0])
    ensures forall i :: 0 <= i < |s| - |r| ==> IsWhitespace(s[i])
  {
    if s != [] && IsWhitespace(s[0]) then TrimStart(s[1..]) else s
  }

  function TrimEnd(s: string): (r: string)
    ensures |r| <= |s| && r == s[..|r|]
    ensures r == [] || !IsWhitespace(r[|r| - 1])
    ensures forall i :: |r| <= i < |s| ==> IsWhitespace(s[i])
  {
    if s != [] && IsWhitespace(s[|s| - 1]) then TrimEnd(s[..|s| - 1]) else s
  }

  /** Leading whitespace ends at the first visible character. */
  lemma TrimStartAt(s: string, k: nat)
    requires k < |s| && !IsWhitespace(s[k])
    requires forall i :: 0 <= i < k ==> IsWhitespace(s[i])
    ensures TrimStart(s) == s[k..]
  {
    var r := TrimStart(s);
    assert r == [] || r[0] == s[|s| - |r|];
  }

  /** Leading whitespace ends inside `a` when `a` has a visible character. */
  lemma TrimStartConcat(a: string, b: string)
    requires TrimStart(a) != []
    ensures TrimStart(a + b) == TrimStart(a) + b
  {
    var ta := TrimStart(a);
    var k := |a| - |ta|;
    assert ta == a[k..];
    var s := a + b;
    assert s[k] == a[k];
    assert forall i :: 0 <= i < k ==> s[i] == a[i];
    TrimStartAt(s, k);
    DropConcat(a, b, k);
  }

  /** Dropping a prefix of the first part of a concatenation. */
  lemma DropConcat<T>(a: seq<T>, b: seq<T>, k: nat)
    requires k <= |a|
    ensures (a + b)[k..] == a[k..] + b
  {
  }

  /** An element of a suffix is an element of the whole, and an element of
      the whole that the dropped prefix lacks is an element of the suffix. */
  lemma InSuffix<T>(s: seq<T>, k: nat, x: T)
    requires k <= |s|
    ensures x in s[k..] ==> x in s
    ensures x in s && (forall i :: 0 <= i < k ==> s[i] != x) ==> x in s[k..]
  {
    if x in s && (forall i :: 0 <= i < k ==> s[i] != x) {
      var p :| 0 <= p < |s| && s[p] == x;
      assert s[k..][p - k] == x;
    }
  }

  /** The same, with the rest in two parts. */
  lemma TrimStartConcat3(a: string, b: string, c: string)
    requires TrimStart(a) != []
    ensures TrimStart(a + b + c) == TrimStart(a) + b + c
  {
    TrimStartConcat(a, b + c);
    Associative(a, b, c);
    Associative(TrimStart(a), b, c);
  }

  lemma Associative<T>(a: seq<T>, b: seq<T>, c: seq<T>)
    ensures a + b + c == a + (b + c)
  {
  }

  /** `str::trim`. */
  function Trim(s: string): string
  {
    TrimEnd(TrimStart(s))
  }

  /** A string trims to nothing exactly when every character is whitespace. */
  lemma TrimEmptyIffBlank(s: string)
    ensures Trim(s) == [] <==> forall i :: 0 <= i < |s| ==> IsWhitespace(s[i])
  {
    var t := TrimStart(s);
    if Trim(s) == [] {
      assert t == [];
    }
  }

  predicate StartsWith(s: string, p: string)
  {
    |p| <= |s| && s[..|p|] == p
  }

  predicate EndsWith(s: string, p: string)
  {
    |p| <= |s| && s[|s| - |p|..] == p
  }

  /** `str::contains` with a string pattern: some position starts a copy of `p`. */
  predicate Contains(s: string, p: string)
    decreases |s|
  {
    StartsWith(s, p) || (s != [] && Contains(s[1..], p))
  }

  /** Containing one character as a substring is containing it as an element. */
  lemma {:induction false} ContainsChar(s: string, c: char)
    ensures Contains(s, [c]) <==> c in s
  {
    if s != [] {
      ContainsChar(s[1..], c);
      assert s == [s[0]] + s[1..];
    }
  }

  /** A pattern found inside a part of `s` is found in `s`. */
  lemma {:induction false} ContainsInfix(a: string, b: string, c: string, p: string)
    requires Contains(b, p)
    ensures Contains(a + b + c, p)
    decreases |a|
  {
    if a == [] {
      ContainsPrefixPart(b, c, p);
      assert a + b + c == b + c;
    } else {
      ContainsInfix(a[1..], b, c, p);
      assert (a + b + c)[1..] == a[1..] + b + c;
    }
  }

  lemma {:induction false} ContainsPrefixPart(b: string, c: string, p: string)
    requires Contains(b, p)
    ensures Contains(b + c, p)
    decreases |b|
  {
    if StartsWith(b, p) {
      assert (b + c)[..|p|] == b[..|p|];
    } else {
      ContainsPrefixPart(b[1..], c, p);
      assert (b + c)[1..] == b[1..] + c;
    }
  }

  /** Index of the first `c`, or -1. */
  function IndexOf(s: string, c: char): (r: int)
    ensures -1 <= r < |s|
    ensures r == -1 <==> c !in s
    ensures r >= 0 ==> s[r] == c && c !in s[..r]
  {
    if s == [] then -1
    else if s[0] == c then 0
    else
      var k := IndexOf(s[1..], c);
      assert s[1..][..(if k < 0 then 0 else k)] == s[1..1 + (if k < 0 then 0 else k)];
      if k < 0 then -1 else k + 1
  }

  /** Index of the last `c`, or -1. */
  function LastIndexOf(s: string, c: char): (r: int)
    ensures -1 <= r < |s|
    ensures r == -1 <==> c !in s
    ensures r >= 0 ==> s[r] == c && c !in s[r + 1..]
  {
    if s == [] then -1
    else if s[|s| - 1] == c then |s| - 1
    else LastIndexOf(s[..|s| - 1], c)
  }

  /** `str::split_once(c)`: around the first `c`. */
  function SplitOnce(s: string, c: char): Option<(string, string)>
  {
    var i := IndexOf(s, c);
    if i < 0 then None else Some((s[..i], s[i + 1..]))
  }

  /** `str::rsplit_once(c)`: around the last `c`. */
  function RSplitOnce(s: string, c: char): Option<(string, string)>
  {
    var i := LastIndexOf(s, c);
    if i < 0 then None else Some((s[..i], s[i + 1..]))
  }

  /** What follows the last separator never holds another one, so splitting it
      again from the right finds nothing. */
  lemma RSplitTailHasNoSeparator(s: string, c: char)
    requires RSplitOnce(s, c).Some?
    ensures c !in RSplitOnce(s, c).value.1
    ensures RSplitOnce(RSplitOnce(s, c).value.1, c) == None
  {
  }

  /** The two halves of a split put back together with the separator give the input. */
  lemma SplitOnceParts(s: string, c: char)
    ensures SplitOnce(s, c).None? <==> c !in s
    ensures SplitOnce(s, c).Some? ==>
              var (a, b) := SplitOnce(s, c).value; s == a + [c] + b && c !in a
  {
    var i := IndexOf(s, c);
    if i >= 0 {
      assert s == s[..i] + [c] + s[i + 1..];
    }
  }

  /** `str::split(c)`: always at least one piece. */
  function Split(s: string, c: char): (r: seq<string>)
    ensures |r| >= 1
    decreases |s|
  {
    var i := IndexOf(s, c);
    if i < 0 then [s] else [s[..i]] + Split(s[i + 1..], c)
  }

  /** `[..].join(sep)`. */
  function Join(xs: seq<string>, sep: string): string
  {
    if xs == [] then ""
    else if |xs| == 1 then xs[0]
    else xs[0] + sep + Join(xs[1..], sep)
  }

  lemma IndexOfAfterPrefix(a: string, c: char, b: string)
    requires c !in a
    ensures IndexOf(a + [c] + b, c) == |a|
  {
    var s := a + [c] + b;
    var i := IndexOf(s, c);
    assert s[|a|] == c;
    assert forall j :: 0 <= j < |a| ==> s[j] == a[j];
  }

  lemma LastIndexOfBeforeSuffix(a: string, c: char, b: string)
    requires c !in b
    ensures LastIndexOf(a + [c] + b, c) == |a|
  {
    var s := a + [c] + b;
    assert s[|a|] == c;
    assert s[|a| + 1..] == b;
    assert forall j :: |a| < j < |s| ==> s[j] == b[j - |a| - 1];
  }

  /** Splitting a join on a one-character separator that no piece contains
      gives back the pieces. */
  lemma {:induction false} SplitJoin(xs: seq<string>, c: char)
    requires |xs| >= 1
    requires forall i :: 0 <= i < |xs| ==> c !in xs[i]
    ensures Split(Join(xs, [c]), c) == xs
  {
    if |xs| > 1 {
      var rest := Join(xs[1..], [c]);
      IndexOfAfterPrefix(xs[0], c, rest);
      var s := xs[0] + [c] + rest;
      assert s[..|xs[0]|] == xs[0];
      assert s[|xs[0]| + 1..] == rest;
      SplitJoin(xs[1..], c);
      assert xs == [xs[0]] + xs[1..];
    }
  }

  /** A character in neither the pieces nor the separator is not in the join. */
  lemma {:induction false} JoinAvoids(xs: seq<string>, sep: string, c: char)
    requires c !in sep
    requires forall i :: 0 <= i < |xs| ==> c !in xs[i]
    ensures c !in Join(xs, sep)
  {
    if |xs| > 1 {
      JoinAvoids(xs[1..], sep, c);
    }
  }

  /** A joined string is empty exactly when there is nothing to join or the only piece is empty. */
  lemma {:induction false} JoinEmpty(xs: seq<string>, sep: string)
    requires sep != []
    ensures Join(xs, sep) == [] <==> xs == [] || xs == [[]]
  {
    if |xs| > 1 {
      assert |Join(xs, sep)| >= |sep|;
    }
  }

  /** Every piece occurs in the joined string. */
  lemma {:induction false} JoinContains(xs: seq<string>, sep: string, i: nat)
    requires i < |xs|
    ensures Contains(Join(xs, sep), xs[i])
    decreases |xs|
  {
    if i == 0 {
      assert Contains(xs[0], xs[0]) by {
        assert xs[0][..|xs[0]|] == xs[0];
      }
      if |xs| > 1 {
        ContainsPrefixPart(xs[0], sep + Join(xs[1..], sep), xs[0]);
        assert xs[0] + (sep + Join(xs[1..], sep)) == Join(xs, sep);
      }
    } else {
      JoinContains(xs[1..], sep, i - 1);
      ContainsInfix(xs[0] + sep, Join(xs[1..], sep), "", xs[i]);
      assert xs[0] + sep + Join(xs[1..], sep) + "" == Join(xs, sep);
    }
  }

  /** `str::strip_suffix(c)`. */
  function StripSuffix(s: string, c: char): Option<string>
  {
    if s != [] && s[|s| - 1] == c then Some(s[..|s| - 1]) else None
  }

  function TrimStartChar(s: string, c: char): (r: string)
    ensures |r| <= |s| && r == s[|s| - |r|..]
    ensures r == [] || r[0] != c
    ensures forall i :: 0 <= i < |s| - |r| ==> s[i] == c
  {
    if s != [] && s[0] == c then TrimStartChar(s[1..], c) else s
  }

  function TrimEndChar(s: string, c: char): (r: string)
    ensures |r| <= |s| && r == s[..|r|]
    ensures r == [] || r[|r| - 1] != c
    ensures forall i :: |r| <= i < |s| ==> s[i] == c
  {
    if s != [] && s[|s| - 1] == c then TrimEndChar(s[..|s| - 1], c) else s
  }

  /** `str::trim_matches(c)`: every leading and trailing `c` removed. */
  function TrimMatches(s: string, c: char): string
  {
    TrimEndChar(TrimStartChar(s, c), c)
  }

  /** Trimming `c` from the front stops at the first other character. */
  lemma TrimStartCharAt(s: string, c: char, k: nat)
    requires k <= |s| && (k == |s| || s[k] != c)
    requires forall i :: 0 <= i < k ==> s[i] == c
    ensures TrimStartChar(s, c) == s[k..]
  {
    var r := TrimStartChar(s, c);
    assert r == [] || r[0] == s[|s| - |r|];
  }

  /** Trimming `c` from the back stops at the last other character. */
  lemma TrimEndCharAt(s: string, c: char, k: nat)
    requires k <= |s| && (k == 0 || s[k - 1] != c)
    requires forall i :: k <= i < |s| ==> s[i] == c
    ensures TrimEndChar(s, c) == s[..k]
  {
    var r := TrimEndChar(s, c);
    assert r == [] || r[|r| - 1] == s[|r| - 1];
  }

  /** Text wrapped in any number of `c` on either side comes back whole from
      `trim_matches(c)` when it neither starts nor ends with `c`. */
  lemma TrimMatchesWrapped(v: string, c: char, m: nat, n: nat)
    requires v == [] || (v[0] != c && v[|v| - 1] != c)
    ensures TrimMatches(seq(m, _ => c) + v + seq(n, _ => c), c) == v
  {
    var pre := seq(m, _ => c);
    var post := seq(n, _ => c);
    var s := pre + v + post;
    var t := v + post;
    WrapIndices(pre, v, post);
    if v == [] {
      forall i | 0 <= i < |s|
        ensures s[i] == c
      {
        if i >= m {
          assert s[i] == t[i - m];
        }
      }
      TrimStartCharAt(s, c, |s|);
    } else {
      assert s[m] == t[0];
      TrimStartCharAt(s, c, m);
      TrimEndCharAt(t, c, |v|);
    }
  }

  /** Where the three parts of `pre + v + post` sit. */
  lemma WrapIndices<T>(pre: seq<T>, v: seq<T>, post: seq<T>)
    ensures (pre + v + post)[|pre|..] == v + post
    ensures (v + post)[..|v|] == v
    ensures forall i :: 0 <= i < |pre| ==> (pre + v + post)[i] == pre[i]
    ensures forall i :: |pre| <= i < |pre + v + post| ==> (pre + v + post)[i] == (v + post)[i - |pre|]
    ensures forall i :: |v| <= i < |v + post| ==> (v + post)[i] == post[i - |v|]
  {
  }

  /** One line of `str::lines`: a `\r` right before the `\n` is dropped. */
  function StripCr(l: string): string
  {
    if l != [] && l[|l| - 1] == '\r' then l[..|l| - 1] else l
  }

  /** `str::lines`: split at `\n`, drop the `\r` of each `\r\n`, no empty last
      line for a final line ending, and no lines at all for "". */
  function Lines(s: string): (r: seq<string>)
    ensures forall i :: 0 <= i < |r| ==> '\n' !in r[i]
    decreases |s|
  {
    if s == [] then []
    else
      var i := IndexOf(s, '\n');
      if i < 0 then [s] else [StripCr(s[..i])] + Lines(s[i + 1..])
  }

  /** Each line followed by `\n`, concatenated. */
  function Unlines(ls: seq<string>): string
  {
    if ls == [] then "" else ls[0] + "\n" + Unlines(ls[1..])
  }

  /** Lines that hold no line break and do not end in `\r` survive `Unlines`
      followed by `str::lines` unchanged. */
  lemma {:induction false} LinesUnlines(ls: seq<string>)
    requires forall i :: 0 <= i < |ls| ==> '\n' !in ls[i] && (ls[i] == [] || ls[i][|ls[i]| - 1] != '\r')
    ensures Lines(Unlines(ls)) == ls
  {
    if ls != [] {
      LinesUnlines(ls[1..]);
      LinesCons(ls[0], Unlines(ls[1..]));
      assert ls == [ls[0]] + ls[1..];
    }
  }

  /** A line without line breaks and a final `\r`, then a line break, comes
      back as the first line. */
  lemma LinesCons(l: string, rest: string)
    requires '\n' !in l && (l == [] || l[|l| - 1] != '\r')
    ensures Lines(l + "\n" + rest) == [l] + Lines(rest)
  {
    var s := l + "\n" + rest;
    assert s == l + ['\n'] + rest;
    IndexOfAfterPrefix(l, '\n', rest);
    assert s[..|l|] == l;
    assert s[|l| + 1..] == rest;
    assert StripCr(l) == l;
  }

  /** `Unlines` of a concatenation is the concatenation of the `Unlines`. */
  lemma {:induction false} UnlinesAppend(a: seq<string>, b: seq<string>)
    ensures Unlines(a + b) == Unlines(a) + Unlines(b)
  {
    if a != [] {
      UnlinesAppend(a[1..], b);
      assert (a + b)[1..] == a[1..] + b;
      calc {
        Unlines(a + b);
        a[0] + "\n" + Unlines(a[1..] + b);
        a[0] + "\n" + (Unlines(a[1..]) + Unlines(b));
        (a[0] + "\n" + Unlines(a[1..])) + Unlines(b);
      }
    } else {
      assert a + b == b;
    }
  }

  /** One more element of input adds its line, if any, to the `Unlines` of a
      `FilterMap`: the step of every loop that appends `line + "\n"`. */
  lemma UnlinesFilterMapStep<A>(xs: seq<A>, f: A -> Option<string>, i: nat)
    requires i < |xs|
    ensures Unlines(FilterMap(xs[..i + 1], f)) ==
              Unlines(FilterMap(xs[..i], f)) + (match f(xs[i]) case Some(l) => l + "\n" case None => "")
  {
    FilterMapStep(xs, f, i);
    var done := FilterMap(xs[..i], f);
    match f(xs[i]) {
      case Some(l) =>
        UnlinesAppend(done, [l]);
        assert Unlines([l]) == l + "\n";
      case None =>
        assert done + [] == done;
    }
  }
}
