/** Option and Result, the two wrapper types the Rust source uses everywhere,
    and the sequence combinators the converters are specified with. */
module Wrappers {

  datatype Option<+T> = None | Some(value: T)

  datatype Result<+T, +E> = Ok(value: T) | Err(error: E)

  /** `Option::unwrap_or`. */
  function UnwrapOr<T>(o: Option<T>, default: T): T
  {
    match o
    case Some(v) => v
    case None => default
  }

  /** The index of the first element `p` holds of, or -1 when there is none. */
  function FirstIndex<T>(xs: seq<T>, p: T -> bool): (k: int)
    ensures -1 <= k < |xs|
    ensures k == -1 <==> forall i :: 0 <= i < |xs| ==> !p(xs[i])
    ensures k >= 0 ==> p(xs[k]) && forall i :: 0 <= i < k ==> !p(xs[i])
  {
    if xs == [] then -1
    else if p(xs[0]) then 0
    else
      var k := FirstIndex(xs[1..], p);
      if k < 0 then -1 else k + 1
  }

  /** `iter().filter_map(f).collect()`: keeps the `Some` images, in input order.
      Defined from the back so that one more loop step is one more element. */
  function FilterMap<A, B>(xs: seq<A>, f: A -> Option<B>): (r: seq<B>)
    ensures |r| <= |xs|
  {
    if xs == [] then []
    else
      var last := xs[|xs| - 1];
      FilterMap(xs[..|xs| - 1], f) + (match f(last) case Some(b) => [b] case None => [])
  }

  /** One more element of input is at most one more element of output. */
  lemma FilterMapStep<A, B>(xs: seq<A>, f: A -> Option<B>, i: nat)
    requires i < |xs|
    ensures FilterMap(xs[..i + 1], f) ==
              FilterMap(xs[..i], f) + (match f(xs[i]) case Some(b) => [b] case None => [])
  {
    assert xs[..i + 1][..i] == xs[..i];
  }

  /** The elements of `xs` on which `f` is `Some`, in order. */
  function Kept<A, B>(xs: seq<A>, f: A -> Option<B>): (r: seq<A>)
    ensures |r| <= |xs|
  {
    if xs == [] then []
    else
      var last := xs[|xs| - 1];
      Kept(xs[..|xs| - 1], f) + (if f(last).Some? then [last] else [])
  }

  /** FilterMap keeps exactly the elements Kept lists, each mapped through `f`. */
  lemma {:induction false} FilterMapIsMapOfKept<A, B>(xs: seq<A>, f: A -> Option<B>)
    ensures |FilterMap(xs, f)| == |Kept(xs, f)|
    ensures forall j :: 0 <= j < |Kept(xs, f)| ==>
              f(Kept(xs, f)[j]).Some? && FilterMap(xs, f)[j] == f(Kept(xs, f)[j]).value
  {
    if xs != [] {
      FilterMapIsMapOfKept(xs[..|xs| - 1], f);
    }
  }

  /** An element is kept exactly when it occurs in `xs` and `f` accepts it. */
  lemma {:induction false} KeptMembership<A, B>(xs: seq<A>, f: A -> Option<B>, x: A)
    ensures x in Kept(xs, f) <==> x in xs && f(x).Some?
  {
    if xs != [] {
      KeptMembership(xs[..|xs| - 1], f, x);
      assert xs == xs[..|xs| - 1] + [xs[|xs| - 1]];
    }
  }

  /** When `f` accepts everything, nothing is dropped. */
  lemma {:induction false} KeptAll<A, B>(xs: seq<A>, f: A -> Option<B>)
    requires forall i :: 0 <= i < |xs| ==> f(xs[i]).Some?
    ensures Kept(xs, f) == xs
  {
    if xs != [] {
      KeptAll(xs[..|xs| - 1], f);
      assert xs == xs[..|xs| - 1] + [xs[|xs| - 1]];
    }
  }

  /** When `f` accepts nothing, nothing is kept. */
  lemma {:induction false} KeptNone<A, B>(xs: seq<A>, f: A -> Option<B>)
    requires forall i :: 0 <= i < |xs| ==> f(xs[i]).None?
    ensures Kept(xs, f) == [] && FilterMap(xs, f) == []
  {
    if xs != [] {
      KeptNone(xs[..|xs| - 1], f);
    }
  }
}
