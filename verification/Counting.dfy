/** Sums of weights over a sequence, and how one replaced element changes them. */
module Counting {

  function Sum<T>(s: seq<T>, weight: T -> nat): nat {
    if s == [] then 0 else weight(s[0]) + Sum(s[1..], weight)
  }

  lemma {:induction false} SumUpdate<T>(s: seq<T>, t: nat, x: T, weight: T -> nat)
    requires t < |s|
    ensures Sum(s[t := x], weight) == Sum(s, weight) - weight(s[t]) + weight(x)
  {
    if t > 0 {
      SumUpdate(s[1..], t - 1, x, weight);
      assert s[t := x][1..] == s[1..][t - 1 := x];
    }
  }

  lemma {:induction false} SumSnoc<T>(s: seq<T>, x: T, weight: T -> nat)
    ensures Sum(s + [x], weight) == Sum(s, weight) + weight(x)
  {
    if s == [] {
      assert (s + [x])[1..] == [];
    } else {
      SumSnoc(s[1..], x, weight);
      assert (s + [x])[1..] == s[1..] + [x];
    }
  }

  lemma {:induction false} SumZero<T>(s: seq<T>, weight: T -> nat)
    requires forall i | 0 <= i < |s| :: weight(s[i]) == 0
    ensures Sum(s, weight) == 0
  {
    if s != [] { SumZero(s[1..], weight); }
  }
}
