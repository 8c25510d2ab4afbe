/**
 * The sum of an integer-valued function over a finite set of words. The
 * word-frequency score visits the union of two vocabularies in hash order,
 * which the program does not fix; a sum over a set is the order-free value
 * every visiting order arrives at.
 */
module SetSums {

  /** The sum of f(w) over the words w of s. */
  ghost function SetSum(s: set<string>, f: string -> int): int
    decreases |s|
  {
    if s == {} then 0
    else
      var x :| x in s;
      f(x) + SetSum(s - {x}, f)
  }

  /** Any element may be taken out first: the sum does not depend on the order. */
  lemma {:induction false} SetSumRemove(s: set<string>, f: string -> int, y: string)
    requires y in s
    ensures SetSum(s, f) == f(y) + SetSum(s - {y}, f)
    decreases |s|
  {
    var x :| x in s && SetSum(s, f) == f(x) + SetSum(s - {x}, f);
    if x != y {
      assert s - {x} - {y} == s - {y} - {x};
      SetSumRemove(s - {x}, f, y);
      SetSumRemove(s - {y}, f, x);
    }
  }

  /** Adding a new element adds its value. */
  lemma SetSumInsert(s: set<string>, f: string -> int, y: string)
    requires y !in s
    ensures SetSum(s + {y}, f) == SetSum(s, f) + f(y)
  {
    SetSumRemove(s + {y}, f, y);
    assert s + {y} - {y} == s;
  }

  /** Two functions that agree on s have the same sum over s. */
  lemma {:induction false} SetSumExt(s: set<string>, f: string -> int, g: string -> int)
    requires forall w :: w in s ==> f(w) == g(w)
    ensures SetSum(s, f) == SetSum(s, g)
    decreases |s|
  {
    if s != {} {
      var x :| x in s;
      SetSumRemove(s, f, x);
      SetSumRemove(s, g, x);
      SetSumExt(s - {x}, f, g);
    }
  }

  /** A sum of non-negative values is non-negative. */
  lemma {:induction false} SetSumNonNeg(s: set<string>, f: string -> int)
    requires forall w :: w in s ==> f(w) >= 0
    ensures SetSum(s, f) >= 0
    decreases |s|
  {
    if s != {} {
      var x :| x in s;
      SetSumRemove(s, f, x);
      SetSumNonNeg(s - {x}, f);
    }
  }

  /** A sum of zeros is zero. */
  lemma {:induction false} SetSumZero(s: set<string>, f: string -> int)
    requires forall w :: w in s ==> f(w) == 0
    ensures SetSum(s, f) == 0
    decreases |s|
  {
    if s != {} {
      var x :| x in s;
      SetSumRemove(s, f, x);
      SetSumZero(s - {x}, f);
    }
  }

  /** A sum of non-negative values is at least any one of them. */
  lemma SetSumAtLeast(s: set<string>, f: string -> int, y: string)
    requires y in s
    requires forall w :: w in s ==> f(w) >= 0
    ensures SetSum(s, f) >= f(y)
  {
    SetSumRemove(s, f, y);
    SetSumNonNeg(s - {y}, f);
  }
}
