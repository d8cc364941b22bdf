/** Counters and the ring indices they stand for. */
module Residues {

  /** `i` modulo `n`, by repeated subtraction. */
  function Residue(i: nat, n: nat): (r: nat)
    requires 0 < n
    ensures r < n
    ensures i < n ==> r == i
  {
    if i < n then i else Residue(i - n, n)
  }

  /** utility::wrap_reset: the index after `value - 1` in a ring of `max` cells. */
  function WrapReset(value: nat, max: nat): (r: nat) {
    if value < max then value else 0
  }

  lemma {:induction false} ResidueIsMod(i: nat, n: nat)
    requires 0 < n
    ensures Residue(i, n) == i % n
  {
    if n <= i {
      ResidueIsMod(i - n, n);
      var q, r := (i - n) / n, (i - n) % n;
      assert i == (q + 1) * n + r;
      ModUnique(i, n, q + 1, r);
    }
  }

  lemma ModUnique(i: nat, n: nat, q: nat, r: nat)
    requires 0 < n && i == q * n + r && r < n
    ensures i % n == r
  {
    var q', r' := i / n, i % n;
    Lap(q' - q, n);
    Lap(q - q', n);
    calc {
      r - r';
      q' * n - q * n;
      (q' - q) * n;
    }
    assert (q - q') * n == -((q' - q) * n);
  }

  lemma Lap(k: int, n: nat)
    ensures 0 < k ==> n <= k * n
    ensures k == 0 ==> k * n == 0
  {
    if 0 < k {
      assert k * n == n + (k - 1) * n;
    }
  }

  /** Advancing a counter advances its index by wrap_reset. */
  lemma {:induction false} ResidueNext(i: nat, n: nat)
    requires 0 < n
    ensures Residue(i + 1, n) == WrapReset(Residue(i, n) + 1, n)
  {
    if n <= i {
      ResidueNext(i - n, n);
    } else if i + 1 == n {
      assert Residue(n, n) == Residue(0, n);
    }
  }

  /** Adding a whole lap does not move the index. */
  lemma ResidueLap(i: nat, n: nat)
    requires 0 < n
    ensures Residue(i + n, n) == Residue(i, n)
  {
  }

  /** Within one lap an index determines its counter. */
  lemma {:induction false} ResidueInjective(i: nat, j: nat, n: nat)
    requires 0 < n
    requires i <= j < i + n
    ensures Residue(i, n) == Residue(j, n) <==> i == j
  {
    if n <= i {
      ResidueInjective(i - n, j - n, n);
    } else if n <= j {
      assert Residue(j, n) == j - n;
    }
  }
}
