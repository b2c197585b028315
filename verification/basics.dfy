/**
 Small sequence helpers shared by the services and the pages: an Option type
 standing in for JavaScript's `null`, JavaScript's `slice(0, end)`, a
 predicate-driven `filter`, the `filter(Boolean)` idiom over optional values,
 and the subsequence relation the filters are stated against.
 */
module Basics {

  /** A value or nothing; `None` plays the role of `null`/`undefined`. */
  datatype Option<+T> = None | Some(value: T)

  function Min(a: int, b: int): int {
    if a <= b then a else b
  }

  /** `a` can be obtained from `b` by deleting elements, keeping the order. */
  predicate IsSubsequence<T(==)>(a: seq<T>, b: seq<T>)
    decreases |b|
  {
    if |a| == 0 then true
    else if |b| == 0 then false
    else (a[0] == b[0] && IsSubsequence(a[1..], b[1..])) || IsSubsequence(a, b[1..])
  }

  /** Keeping a common head keeps the subsequence relation. */
  lemma SubsequenceCons<T>(x: T, a: seq<T>, b: seq<T>)
    requires IsSubsequence(a, b)
    ensures IsSubsequence([x] + a, [x] + b)
  {
    assert ([x] + a)[1..] == a && ([x] + b)[1..] == b;
  }

  /** Dropping an extra head from the larger sequence keeps the subsequence relation. */
  lemma SubsequenceSkip<T>(y: T, a: seq<T>, b: seq<T>)
    requires IsSubsequence(a, b)
    ensures IsSubsequence(a, [y] + b)
  {
    assert ([y] + b)[1..] == b;
  }

  /** Every prefix of a sequence is a subsequence of it. */
  lemma {:induction false} PrefixIsSubsequence<T>(b: seq<T>, k: nat)
    requires k <= |b|
    ensures IsSubsequence(b[..k], b)
    decreases |b|
  {
    if k > 0 {
      assert b[..k][1..] == b[1..][..k - 1];
      PrefixIsSubsequence(b[1..], k - 1);
    }
  }

  /** A subsequence of a subsequence is a subsequence. */
  lemma {:induction false} SubsequenceTransitive<T>(a: seq<T>, b: seq<T>, c: seq<T>)
    requires IsSubsequence(a, b) && IsSubsequence(b, c)
    ensures IsSubsequence(a, c)
    decreases |c|
  {
    if |a| == 0 {
    } else if |c| == 0 {
    } else if b[0] == c[0] && IsSubsequence(b[1..], c[1..]) {
      if a[0] == b[0] && IsSubsequence(a[1..], b[1..]) {
        SubsequenceTransitive(a[1..], b[1..], c[1..]);
      } else {
        SubsequenceTransitive(a, b[1..], c[1..]);
      }
    } else {
      SubsequenceTransitive(a, b, c[1..]);
    }
  }

  /**
   JavaScript's `xs.slice(0, end)` for an integer `end`: a negative `end`
   counts from the back, an `end` past the length stops at the length.
   */
  function SliceTo<T>(xs: seq<T>, end: int): (r: seq<T>)
    ensures end >= 0 ==> |r| == Min(end, |xs|)
    ensures end < 0 ==> |r| == if |xs| + end < 0 then 0 else |xs| + end
    ensures r == xs[..|r|]
  {
    if end < 0 then
      (if |xs| + end < 0 then [] else xs[..|xs| + end])
    else if end > |xs| then xs
    else xs[..end]
  }

  /** Every element of a subsequence occurs in the larger sequence. */
  lemma {:induction false} SubsequenceMembers<T>(a: seq<T>, b: seq<T>)
    requires IsSubsequence(a, b)
    ensures forall x :: x in a ==> x in b
    decreases |b|
  {
    if |a| == 0 {
    } else if a[0] == b[0] && IsSubsequence(a[1..], b[1..]) {
      SubsequenceMembers(a[1..], b[1..]);
      assert a == [a[0]] + a[1..];
    } else {
      SubsequenceMembers(a, b[1..]);
    }
  }

  /** JavaScript's `xs.filter(f)`: the elements satisfying `f`, in order. */
  function Filter<T(!new)>(xs: seq<T>, f: T -> bool): (r: seq<T>)
    ensures |r| <= |xs|
    ensures forall x :: x in r <==> x in xs && f(x)
    ensures forall x :: multiset(r)[x] == if f(x) then multiset(xs)[x] else 0
    ensures IsSubsequence(r, xs)
    decreases |xs|
  {
    if |xs| == 0 then []
    else
      var rest := Filter(xs[1..], f);
      assert xs == [xs[0]] + xs[1..];
      if f(xs[0]) then [xs[0]] + rest else rest
  }

  /** Every value of `xs`, each marked present. */
  function Wrap<T>(xs: seq<T>): (r: seq<Option<T>>)
    ensures |r| == |xs| && forall i :: 0 <= i < |xs| ==> r[i] == Some(xs[i])
  {
    seq(|xs|, i requires 0 <= i < |xs| => Some(xs[i]))
  }

  lemma WrapCons<T>(x: T, xs: seq<T>)
    ensures Wrap([x] + xs) == [Some(x)] + Wrap(xs)
  {
  }

  /** One step of `filter`: the head counts when it satisfies the predicate. */
  lemma FilterStep<T(!new)>(xs: seq<T>, f: T -> bool)
    requires |xs| > 0
    ensures |Filter(xs, f)| == (if f(xs[0]) then 1 else 0) + |Filter(xs[1..], f)|
  {
  }

  /** JavaScript's `xs.filter(Boolean)` over values that are either `null` or an object. */
  function Somes<T(!new)>(xs: seq<Option<T>>): (r: seq<T>)
    ensures |r| <= |xs|
    ensures forall x :: x in r <==> Some(x) in xs
    ensures forall x :: multiset(r)[x] == multiset(xs)[Some(x)]
    ensures IsSubsequence(Wrap(r), xs)
    decreases |xs|
  {
    if |xs| == 0 then []
    else
      var rest := Somes(xs[1..]);
      assert xs == [xs[0]] + xs[1..];
      match xs[0]
      case Some(x) =>
        WrapCons(x, rest);
        SubsequenceCons(Some(x), Wrap(rest), xs[1..]);
        [x] + rest
      case None =>
        SubsequenceSkip(None, Wrap(rest), xs[1..]);
        rest
  }

  /** One step of `filter(Boolean)`: the head is kept when present. */
  lemma SomesStep<T(!new)>(xs: seq<Option<T>>)
    requires |xs| > 0
    ensures Somes(xs) == (if xs[0].Some? then [xs[0].value] else []) + Somes(xs[1..])
  {
  }

  /** When nothing is missing, `filter(Boolean)` keeps every value in place. */
  lemma {:induction false} SomesOfAllPresent<T(!new)>(xs: seq<Option<T>>)
    requires forall i :: 0 <= i < |xs| ==> xs[i].Some?
    ensures |Somes(xs)| == |xs|
    ensures forall i :: 0 <= i < |xs| ==> Somes(xs)[i] == xs[i].value
    decreases |xs|
  {
    if |xs| > 0 {
      SomesOfAllPresent(xs[1..]);
    }
  }
}
