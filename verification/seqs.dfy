/** Sequence helpers: concatenation of a sequence of sequences and prefix sums. */
module Seqs {

  /** The sum of `f` over the elements of `xs`. */
  function SumOf<T>(xs: seq<T>, f: T -> nat): nat
    decreases |xs|
  {
    if |xs| == 0 then 0 else SumOf(xs[..|xs| - 1], f) + f(xs[|xs| - 1])
  }

  /** The length of a sequence, as a function value for `SumOf`. */
  function Length<T>(s: seq<T>): nat
  {
    |s|
  }

  /** The concatenation of the sequences of `xss`, in order (Python's repeated `extend`). */
  function Join<T>(xss: seq<seq<T>>): (r: seq<T>)
    ensures |r| == SumOf(xss, Length)
    decreases |xss|
  {
    if |xss| == 0 then [] else Join(xss[..|xss| - 1]) + xss[|xss| - 1]
  }

  /** Extending a prefix by one element adds that element's weight. */
  lemma SumOfStep<T>(xs: seq<T>, i: nat, f: T -> nat)
    requires i < |xs|
    ensures SumOf(xs[..i + 1], f) == SumOf(xs[..i], f) + f(xs[i])
  {
    assert xs[..i + 1][..i] == xs[..i];
  }

  /** Prefix sums never decrease as the prefix grows. */
  lemma {:induction false} SumOfMonotone<T>(xs: seq<T>, i: nat, j: nat, f: T -> nat)
    requires i <= j <= |xs|
    ensures SumOf(xs[..i], f) <= SumOf(xs[..j], f)
    decreases j - i
  {
    if i < j {
      SumOfMonotone(xs, i, j - 1, f);
      SumOfStep(xs, j - 1, f);
    }
  }

  /** An index into the left part of a concatenation reads the left part. */
  lemma AppendIndexLeft<T>(p: seq<T>, q: seq<T>, i: nat)
    requires i < |p|
    ensures (p + q)[i] == p[i]
  {
  }

  /** An index past the left part of a concatenation reads the right part. */
  lemma AppendIndexRight<T>(p: seq<T>, q: seq<T>, k: nat)
    requires k < |q|
    ensures |p| + k < |p + q| && (p + q)[|p| + k] == q[k]
  {
  }

  /** Concatenation is associative. */
  lemma AppendAssociative<T>(p: seq<T>, q: seq<T>, r: seq<T>)
    ensures (p + q) + r == p + (q + r)
  {
  }
}
