/**
 The Fisher–Yates shuffle of `shuffleArray` in lib/video-service.ts.

 The random source is made explicit: `choices[i]` is the index `j` drawn at
 the loop step for position `i`, and a usable draw satisfies `0 <= j <= i`.
 `IndexFromDraw` shows that `Math.floor(Math.random() * (i + 1))` always
 produces such an index. The recursive `FisherYates` is the reference the
 imperative `ShuffleArray` is proved to compute.
 */
module Shuffle {

  /** No element occurs twice. */
  predicate Distinct<T(==)>(s: seq<T>) {
    forall i, j :: 0 <= i < j < |s| ==> s[i] != s[j]
  }

  /** `choices` supplies a draw `0 <= choices[i] <= i` for every position of a sequence of length `n`. */
  predicate ValidChoices(choices: seq<nat>, n: nat) {
    |choices| >= n && forall i :: 0 <= i < n ==> choices[i] <= i
  }

  /** The index `Math.floor(u * (i + 1))` for a draw `u` of `Math.random()`, which lies in [0, 1). */
  function IndexFromDraw(u: real, i: nat): (j: nat)
    requires 0.0 <= u < 1.0
    ensures j <= i
  {
    var n := (i + 1) as real;
    ScaleBelow(u, n);
    (u * n).Floor
  }

  /** Scaling by a factor in [0, 1) stays in [0, n). */
  lemma ScaleBelow(u: real, n: real)
    requires 0.0 <= u < 1.0 && n > 0.0
    ensures 0.0 <= u * n < n
  {
    assert n - u * n == (1.0 - u) * n;
  }

  /** The index sequence produced by a sequence of `Math.random()` draws, `draws[i]` taken at step `i`. */
  function ChoicesFromDraws(draws: seq<real>): (choices: seq<nat>)
    requires forall i :: 0 <= i < |draws| ==> 0.0 <= draws[i] < 1.0
    ensures ValidChoices(choices, |draws|)
  {
    seq(|draws|, i requires 0 <= i < |draws| => IndexFromDraw(draws[i], i))
  }

  /** The destructuring swap `[a[i], a[j]] = [a[j], a[i]]`. */
  function Swap<T>(s: seq<T>, i: nat, j: nat): (r: seq<T>)
    requires i < |s| && j < |s|
    ensures |r| == |s| && r[i] == s[j] && r[j] == s[i]
    ensures forall k :: 0 <= k < |s| && k != i && k != j ==> r[k] == s[k]
  {
    s[i := s[j]][j := s[i]]
  }

  lemma SwapPermutes<T>(s: seq<T>, i: nat, j: nat)
    requires i < |s| && j < |s|
    ensures multiset(Swap(s, i, j)) == multiset(s)
  {
  }

  /** The loop steps for positions `i`, `i - 1`, ..., `1`, in that order. */
  function ShuffleFrom<T>(s: seq<T>, choices: seq<nat>, i: nat): (r: seq<T>)
    requires i < |s| && ValidChoices(choices, |s|)
    ensures |r| == |s|
    decreases i
  {
    if i == 0 then s
    else
      ShuffleFrom(Swap(s, i, choices[i]), choices, i - 1)
  }

  /** The swaps only move elements around. */
  lemma {:induction false} ShuffleFromPermutes<T>(s: seq<T>, choices: seq<nat>, i: nat)
    requires i < |s| && ValidChoices(choices, |s|)
    ensures multiset(ShuffleFrom(s, choices, i)) == multiset(s)
    decreases i
  {
    if i > 0 {
      var t := Swap(s, i, choices[i]);
      SwapPermutes(s, i, choices[i]);
      ShuffleFromPermutes(t, choices, i - 1);
      assert ShuffleFrom(s, choices, i) == ShuffleFrom(t, choices, i - 1);
    }
  }

  /** Fisher–Yates over the whole sequence: steps from the last position down to 1. */
  function FisherYates<T>(s: seq<T>, choices: seq<nat>): (r: seq<T>)
    requires ValidChoices(choices, |s|)
    ensures |r| == |s|
    ensures multiset(r) == multiset(s)
  {
    if |s| == 0 then s
    else
      ShuffleFromPermutes(s, choices, |s| - 1);
      ShuffleFrom(s, choices, |s| - 1)
  }

  /** A sequence has no repeated element exactly when every element occurs at most once in its multiset. */
  lemma {:induction false} DistinctIffSingletons<T>(s: seq<T>)
    ensures Distinct(s) <==> forall x :: multiset(s)[x] <= 1
    decreases |s|
  {
    if |s| > 0 {
      var tail := s[1..];
      DistinctIffSingletons(tail);
      assert s == [s[0]] + tail;
      assert multiset(s) == multiset{s[0]} + multiset(tail);
      if Distinct(s) {
        assert Distinct(tail) by {
          forall i, j | 0 <= i < j < |tail| ensures tail[i] != tail[j] {
            assert tail[i] == s[i + 1] && tail[j] == s[j + 1];
          }
        }
        assert s[0] !in tail by {
          forall k | 0 <= k < |tail| ensures tail[k] != s[0] {
            assert tail[k] == s[k + 1];
          }
        }
      }
      if forall x :: multiset(s)[x] <= 1 {
        assert forall x :: multiset(tail)[x] <= 1 by {
          forall x ensures multiset(tail)[x] <= 1 {
            assert multiset(s)[x] <= 1;
          }
        }
        assert multiset(tail)[s[0]] == 0 by {
          assert multiset(s)[s[0]] <= 1;
        }
        forall i, j | 0 <= i < j < |s| ensures s[i] != s[j] {
          if i == 0 {
            assert s[j] == tail[j - 1];
            assert s[j] in multiset(tail);
          } else {
            assert s[i] == tail[i - 1] && s[j] == tail[j - 1];
          }
        }
      }
    }
  }

  /** A shuffle of pairwise different elements keeps them pairwise different. */
  lemma FisherYatesKeepsDistinct<T>(s: seq<T>, choices: seq<nat>)
    requires ValidChoices(choices, |s|) && Distinct(s)
    ensures Distinct(FisherYates(s, choices))
  {
    DistinctIffSingletons(s);
    DistinctIffSingletons(FisherYates(s, choices));
  }

  /**
   `shuffleArray`: copies the input (sequences are values, so the caller's
   array is untouched), then swaps position `i` with `choices[i]` for `i`
   from the last index down to 1.
   */
  method ShuffleArray<T>(input: seq<T>, choices: seq<nat>) returns (shuffled: seq<T>)
    requires ValidChoices(choices, |input|)
    ensures |shuffled| == |input|
    ensures multiset(shuffled) == multiset(input)
    ensures shuffled == FisherYates(input, choices)
  {
    shuffled := input;
    var i: int := |input| - 1;
    ghost var target := FisherYates(input, choices);
    assert |input| > 0 ==> target == ShuffleFrom(input, choices, i);
    while i > 0
      invariant |shuffled| == |input|
      invariant |input| == 0 ==> i == -1 && target == input
      invariant |input| > 0 ==> 0 <= i < |input| && ShuffleFrom(shuffled, choices, i) == target
    {
      ShuffleFromStep(shuffled, choices, i);
      shuffled := Swap(shuffled, i, choices[i]);
      i := i - 1;
    }
    if |input| > 0 {
      assert ShuffleFrom(shuffled, choices, 0) == shuffled;
    }
  }

  lemma ShuffleFromStep<T>(s: seq<T>, choices: seq<nat>, i: nat)
    requires 0 < i < |s| && ValidChoices(choices, |s|)
    ensures ShuffleFrom(s, choices, i) == ShuffleFrom(Swap(s, i, choices[i]), choices, i - 1)
  {
  }
}
