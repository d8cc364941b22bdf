/** Sums over a sequence and how one update changes them. */
module Sums {

  function Sum<X>(s: seq<X>, f: X -> nat): (n: nat) {
    if s == [] then 0 else f(s[0]) + Sum(s[1..], f)
  }

  lemma {:induction false} SumUpdate<X>(s: seq<X>, i: nat, x: X, f: X -> nat)
    requires i < |s|
    ensures Sum(s[i := x], f) == Sum(s, f) - f(s[i]) + f(x)
    ensures f(s[i]) <= Sum(s, f)
    decreases |s|
  {
    var u := s[i := x];
    if i == 0 {
      assert u[1..] == s[1..];
    } else {
      assert u[1..] == s[1..][i - 1 := x];
      SumUpdate(s[1..], i - 1, x, f);
    }
  }

  lemma SumAt<X>(s: seq<X>, i: nat, f: X -> nat)
    requires i < |s|
    ensures f(s[i]) <= Sum(s, f)
  {
    SumUpdate(s, i, s[i], f);
  }

  lemma {:induction false} SumZero<X>(s: seq<X>, f: X -> nat)
    requires forall i :: 0 <= i < |s| ==> f(s[i]) == 0
    ensures Sum(s, f) == 0
    decreases |s|
  {
    if s != [] { SumZero(s[1..], f); }
  }
}
