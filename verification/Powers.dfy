/** Sizes that are powers of two. */
module Powers {

  predicate IsPowerOfTwo(n: nat) {
    n == 1 || (n % 2 == 0 && 0 < n / 2 && IsPowerOfTwo(n / 2))
  }

  /** Smallest power of two at least as big as x, and 0 for 0 (utility::clp2). */
  function PowerAtLeast(x: nat): (r: nat)
    ensures x <= r
  {
    if x == 0 then 0 else DoubleUntil(1, x)
  }

  function DoubleUntil(p: nat, x: nat): (r: nat)
    requires 0 < p
    ensures x <= r
    decreases x - p
  {
    if x <= p then p else DoubleUntil(2 * p, x)
  }

  lemma {:induction false} DoubledPower(p: nat, x: nat)
    requires IsPowerOfTwo(p) && 0 < p < 2 * x
    ensures IsPowerOfTwo(DoubleUntil(p, x)) && DoubleUntil(p, x) < 2 * x
    decreases x - p
  {
    if p < x {
      assert 2 * p / 2 == p;
      DoubledPower(2 * p, x);
    }
  }

  /** The result is a power of two, and half of it would not do. */
  lemma LeastPower(x: nat)
    ensures PowerAtLeast(0) == 0
    ensures 0 < x ==> IsPowerOfTwo(PowerAtLeast(x)) && x <= PowerAtLeast(x) < 2 * x
  {
    if 0 < x { DoubledPower(1, x); }
  }
}
