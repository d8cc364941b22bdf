/** Memory for one value, constructed or not. */
module Cells {

  datatype Cell<T> = Raw | Live(value: T)

  function Lives<T>(vs: seq<T>): (cs: seq<Cell<T>>)
    ensures |cs| == |vs|
    ensures forall i :: 0 <= i < |vs| ==> cs[i] == Live(vs[i])
  {
    seq(|vs|, i requires 0 <= i < |vs| => Live(vs[i]))
  }
}
