/** Sums of a natural-number weight over a sequence, used to count program counters,
    pending work and per-cell differences. */
module Sums {

  function Sum<T>(s: seq<T>, weight: T -> nat): nat
  {
    if s == [] then 0 else weight(s[0]) + Sum(s[1..], weight)
  }

  /** Replacing one element changes the sum by the difference of the two weights. */
  lemma {:induction false} SumUpdate<T>(s: seq<T>, weight: T -> nat, i: nat, x: T)
    requires i < |s|
    ensures Sum(s[i := x], weight) + weight(s[i]) == Sum(s, weight) + weight(x)
  {
    if i == 0 {
      assert s[0 := x][1..] == s[1..];
    } else {
      assert s[i := x][1..] == s[1..][i - 1 := x];
      SumUpdate(s[1..], weight, i - 1, x);
    }
  }

  /** A single weight never exceeds the sum. */
  lemma {:induction false} SumBoundsElement<T>(s: seq<T>, weight: T -> nat, i: nat)
    requires i < |s|
    ensures weight(s[i]) <= Sum(s, weight)
  {
    if i > 0 {
      SumBoundsElement(s[1..], weight, i - 1);
    }
  }

  /** Two different elements together never exceed the sum. */
  lemma {:induction false} SumBoundsPair<T>(s: seq<T>, weight: T -> nat, i: nat, j: nat)
    requires i < j < |s|
    ensures weight(s[i]) + weight(s[j]) <= Sum(s, weight)
  {
    if i == 0 {
      SumBoundsElement(s[1..], weight, j - 1);
    } else {
      SumBoundsPair(s[1..], weight, i - 1, j - 1);
    }
  }

  /** A positive sum has a positive summand. */
  lemma {:induction false} SumPositive<T>(s: seq<T>, weight: T -> nat) returns (i: nat)
    requires Sum(s, weight) > 0
    ensures i < |s| && weight(s[i]) > 0
  {
    if weight(s[0]) > 0 {
      i := 0;
    } else {
      i := SumPositive(s[1..], weight);
      i := i + 1;
    }
  }

  lemma {:induction false} SumZero<T>(s: seq<T>, weight: T -> nat)
    requires forall i :: 0 <= i < |s| ==> weight(s[i]) == 0
    ensures Sum(s, weight) == 0
  {
    if s != [] {
      forall i | 0 <= i < |s[1..]| ensures weight(s[1..][i]) == 0 {
        assert s[1..][i] == s[i + 1];
      }
      SumZero(s[1..], weight);
    }
  }
}
