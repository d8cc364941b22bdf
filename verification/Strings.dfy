/** Small facts about strings. */
module Strings {

  lemma Assoc(a: string, b: string, c: string)
    ensures a + (b + c) == (a + b) + c
  {
  }

  /** Dropping in two steps is dropping at once. */
  lemma Further(t: string, at: nat, n: nat)
    requires at + n <= |t|
    ensures t[at..][n..] == t[at + n..]
  {
  }
}
