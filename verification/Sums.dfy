/** Weighted sums over a sequence. */
module Sums {
  // A protocol with an arbitrary number of threads keeps the threads' program counters in a
  // sequence; "the number of threads that hold a slot" is then a sum with weight 0 or 1, and
  // "the bytes still to be added" a sum with larger weights.

  function Sum<T>(s: seq<T>, w: T -> nat): (total: nat)
  {
    if s == [] then 0 else w(s[0]) + Sum(s[1..], w)
  }

  /** Moving one thread changes a sum by the difference of its two weights. */
  lemma {:induction false} SumUpdate<T>(s: seq<T>, w: T -> nat, i: nat, x: T)
    requires i < |s|
    ensures Sum(s[i := x], w) == Sum(s, w) - w(s[i]) + w(x)
  {
    if i == 0 {
      assert s[0 := x][1..] == s[1..];
    } else {
      assert s[i := x][1..] == s[1..][i - 1 := x];
      SumUpdate(s[1..], w, i - 1, x);
    }
  }

  lemma {:induction false} SumAtLeast<T>(s: seq<T>, w: T -> nat, i: nat)
    requires i < |s|
    ensures w(s[i]) <= Sum(s, w)
  {
    if i > 0 {
      SumAtLeast(s[1..], w, i - 1);
    }
  }

  lemma {:induction false} SumAtLeastTwo<T>(s: seq<T>, w: T -> nat, i: nat, j: nat)
    requires i < |s| && j < |s| && i != j
    ensures w(s[i]) + w(s[j]) <= Sum(s, w)
  {
    if i == 0 {
      SumAtLeast(s[1..], w, j - 1);
    } else if j == 0 {
      SumAtLeast(s[1..], w, i - 1);
    } else {
      SumAtLeastTwo(s[1..], w, i - 1, j - 1);
    }
  }

  lemma {:induction false} SumWitness<T>(s: seq<T>, w: T -> nat) returns (i: nat)
    requires Sum(s, w) > 0
    ensures i < |s| && w(s[i]) > 0
  {
    if w(s[0]) > 0 {
      i := 0;
    } else {
      var j := SumWitness(s[1..], w);
      i := j + 1;
    }
  }

  lemma {:induction false} SumZero<T>(s: seq<T>, w: T -> nat)
    requires forall i :: 0 <= i < |s| ==> w(s[i]) == 0
    ensures Sum(s, w) == 0
  {
    if s != [] {
      SumZero(s[1..], w);
    }
  }

  /** A sum of weights that are each at most `m` is at most `m` times the number of elements. */
  lemma {:induction false} SumBound<T>(s: seq<T>, w: T -> nat, m: nat)
    requires forall i :: 0 <= i < |s| ==> w(s[i]) <= m
    ensures Sum(s, w) <= |s| * m
  {
    if s != [] {
      SumBound(s[1..], w, m);
    }
  }

  lemma {:induction false} SumAppend<T>(a: seq<T>, b: seq<T>, w: T -> nat)
    ensures Sum(a + b, w) == Sum(a, w) + Sum(b, w)
  {
    if a == [] {
      assert a + b == b;
    } else {
      assert (a + b)[1..] == a[1..] + b;
      SumAppend(a[1..], b, w);
    }
  }
}
