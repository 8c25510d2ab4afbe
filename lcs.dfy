/**
 * Longest common subsequence, specified twice: once by the textbook
 * recurrence on prefixes (the recurrence the dynamic-programming table of
 * calculateLCSLength fills in), and once from first principles, as the
 * greatest length of a sequence that can be obtained from both inputs by
 * deleting elements. The two are proved to agree.
 */
module Lcs {

  /** x is obtained from a by deleting zero or more elements. */
  ghost predicate IsSubseq<T>(x: seq<T>, a: seq<T>)
    decreases |a|
  {
    x == [] ||
    (a != [] &&
      (IsSubseq(x, a[..|a| - 1]) ||
       (x[|x| - 1] == a[|a| - 1] && IsSubseq(x[..|x| - 1], a[..|a| - 1]))))
  }

  function Max(x: int, y: int): int {
    if x >= y then x else y
  }

  /** The LCS length of a and b, by the recurrence on their last elements. */
  function LcsLen<T(==)>(a: seq<T>, b: seq<T>): nat
    decreases |a| + |b|
  {
    if a == [] || b == [] then 0
    else if a[|a| - 1] == b[|b| - 1] then LcsLen(a[..|a| - 1], b[..|b| - 1]) + 1
    else Max(LcsLen(a[..|a| - 1], b), LcsLen(a, b[..|b| - 1]))
  }

  /** A common subsequence as long as LcsLen says. */
  ghost function CommonWitness<T>(a: seq<T>, b: seq<T>): (x: seq<T>)
    ensures IsSubseq(x, a) && IsSubseq(x, b) && |x| == LcsLen(a, b)
    decreases |a| + |b|
  {
    if a == [] || b == [] then []
    else
      var a', b' := a[..|a| - 1], b[..|b| - 1];
      if a[|a| - 1] == b[|b| - 1] then
        var w := CommonWitness(a', b');
        assert (w + [a[|a| - 1]])[..|w|] == w;
        w + [a[|a| - 1]]
      else if LcsLen(a', b) >= LcsLen(a, b') then
        CommonWitness(a', b)
      else
        CommonWitness(a, b')
  }

  /**
   * Dropping the last element of either input lowers the LCS length by at
   * most one, and never raises it.
   */
  lemma {:induction false} LcsDropLast<T>(a: seq<T>, b: seq<T>)
    ensures a != [] ==> LcsLen(a[..|a| - 1], b) <= LcsLen(a, b) <= LcsLen(a[..|a| - 1], b) + 1
    ensures b != [] ==> LcsLen(a, b[..|b| - 1]) <= LcsLen(a, b) <= LcsLen(a, b[..|b| - 1]) + 1
    decreases |a| + |b|
  {
    if a != [] && b != [] {
      var a', b' := a[..|a| - 1], b[..|b| - 1];
      LcsDropLast(a', b);
      LcsDropLast(a, b');
    }
  }

  /** No common subsequence is longer than LcsLen. */
  lemma {:induction false} CommonBounded<T>(x: seq<T>, a: seq<T>, b: seq<T>)
    requires IsSubseq(x, a) && IsSubseq(x, b)
    ensures |x| <= LcsLen(a, b)
    decreases |a| + |b|
  {
    if x != [] {
      var a', b', x' := a[..|a| - 1], b[..|b| - 1], x[..|x| - 1];
      LcsDropLast(a, b);
      if IsSubseq(x, a') {
        CommonBounded(x, a', b);
      } else if IsSubseq(x, b') {
        CommonBounded(x, a, b');
      } else {
        CommonBounded(x', a', b');
      }
    }
  }

  /**
   * LcsLen(a, b) is the length of a longest common subsequence: some common
   * subsequence has that length and none is longer.
   */
  lemma LcsIsLongest<T>(a: seq<T>, b: seq<T>)
    ensures exists x :: IsSubseq(x, a) && IsSubseq(x, b) && |x| == LcsLen(a, b)
    ensures forall x :: IsSubseq(x, a) && IsSubseq(x, b) ==> |x| <= LcsLen(a, b)
  {
    var w := CommonWitness(a, b);
    forall x | IsSubseq(x, a) && IsSubseq(x, b) ensures |x| <= LcsLen(a, b) {
      CommonBounded(x, a, b);
    }
  }

  /** A subsequence is no longer than the sequence it comes from. */
  lemma {:induction false} SubseqShorter<T>(x: seq<T>, a: seq<T>)
    requires IsSubseq(x, a)
    ensures |x| <= |a|
    decreases |a|
  {
    if x != [] {
      if IsSubseq(x, a[..|a| - 1]) {
        SubseqShorter(x, a[..|a| - 1]);
      } else {
        SubseqShorter(x[..|x| - 1], a[..|a| - 1]);
      }
    }
  }

  /** Every sequence is a subsequence of itself. */
  lemma {:induction false} SubseqSelf<T>(a: seq<T>)
    ensures IsSubseq(a, a)
    decreases |a|
  {
    if a != [] {
      SubseqSelf(a[..|a| - 1]);
    }
  }

  /** The LCS length is at most the length of either input. */
  lemma LcsBounded<T>(a: seq<T>, b: seq<T>)
    ensures LcsLen(a, b) <= |a| && LcsLen(a, b) <= |b|
  {
    var w := CommonWitness(a, b);
    SubseqShorter(w, a);
    SubseqShorter(w, b);
  }

  /** The LCS length does not depend on the order of the arguments. */
  lemma LcsSymmetric<T>(a: seq<T>, b: seq<T>)
    ensures LcsLen(a, b) == LcsLen(b, a)
  {
    CommonBounded(CommonWitness(a, b), b, a);
    CommonBounded(CommonWitness(b, a), a, b);
  }

  /** A sequence's LCS with itself is the whole sequence. */
  lemma LcsSelf<T>(a: seq<T>)
    ensures LcsLen(a, a) == |a|
  {
    SubseqSelf(a);
    CommonBounded(a, a, a);
    LcsBounded(a, a);
  }
}
