/** Sums over the threads of a protocol. */
module Sums {

  function Sum<T>(ms: seq<T>, f: T -> nat): nat {
    if ms == [] then 0 else Sum(ms[..|ms| - 1], f) + f(ms[|ms| - 1])
  }

  lemma {:induction false} SumUpdate<T>(ms: seq<T>, f: T -> nat, i: nat, m: T)
    requires i < |ms|
    ensures Sum(ms[i := m], f) == Sum(ms, f) - f(ms[i]) + f(m)
  {
    var n := |ms| - 1;
    if i < n {
      SumUpdate(ms[..n], f, i, m);
      assert ms[i := m][..n] == ms[..n][i := m];
    } else {
      assert ms[i := m][..n] == ms[..n];
    }
  }

  lemma {:induction false} SumAtLeast<T>(ms: seq<T>, f: T -> nat, i: nat)
    requires i < |ms|
    ensures f(ms[i]) <= Sum(ms, f)
  {
    if i < |ms| - 1 {
      SumAtLeast(ms[..|ms| - 1], f, i);
    }
  }

  lemma {:induction false} SumWitness<T>(ms: seq<T>, f: T -> nat) returns (i: nat)
    requires Sum(ms, f) > 0
    ensures i < |ms| && f(ms[i]) > 0
  {
    if f(ms[|ms| - 1]) > 0 {
      i := |ms| - 1;
    } else {
      i := SumWitness(ms[..|ms| - 1], f);
    }
  }

  lemma {:induction false} SumZero<T>(ms: seq<T>, f: T -> nat)
    requires forall i :: 0 <= i < |ms| ==> f(ms[i]) == 0
    ensures Sum(ms, f) == 0
  {
    if ms != [] {
      SumZero(ms[..|ms| - 1], f);
    }
  }
}
