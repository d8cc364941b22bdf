/** Where a header and several arrays of equal capacity lie in one block of memory.
    Each array begins at a multiple of its element size, behind the one before it.  One
    computation gives the offset of one array from the sizes of those up to it, another
    all offsets at once; both accumulate from the header on.  What is proved of the list
    of offsets rests on how each follows from the one before.
    Sizes are unbounded here; std::size_t wraps around. */
module Layouts {

  function AlignUpwards(n: nat, a: nat): (r: nat)
    requires a > 0
  {
    (n + a - 1) / a * a
  }

  ghost predicate Multiple(r: nat, a: nat) {
    exists k: nat {:trigger k * a} :: r == k * a
  }

  lemma Quotient(n: nat, a: nat)
    requires a > 0
    ensures n / a * a <= n < n / a * a + a
  {
    assert n == n / a * a + n % a;
  }

  lemma Scaled(k: nat, q: nat, a: nat)
    requires k < q
    ensures k * a + a <= q * a
  {
    assert (k + 1) * a <= q * a;
  }

  /** The least multiple of a that is not below n. */
  lemma AlignLaw(n: nat, a: nat)
    requires a > 0
    ensures var r := AlignUpwards(n, a); n <= r < n + a && Multiple(r, a)
    ensures forall k: nat {:trigger k * a} :: k * a >= n ==> k * a >= AlignUpwards(n, a)
  {
    var q := (n + a - 1) / a;
    Quotient(n + a - 1, a);
    assert AlignUpwards(n, a) == q * a;
    forall k: nat | k * a >= n ensures k * a >= q * a { if k < q { Scaled(k, q, a); } }
  }

  predicate Sizes(sizes: seq<nat>) {
    sizes != [] && forall i :: 0 <= i < |sizes| ==> sizes[i] > 0
  }

  function OffsetOfImpl(capacity: nat, acc: nat, sizes: seq<nat>): (offset: nat)
    requires Sizes(sizes)
    decreases |sizes|
  {
    if |sizes| == 1 then acc
    else OffsetOfImpl(capacity, AlignUpwards(acc + sizes[0] * capacity, sizes[1]), sizes[1..])
  }

  /** offset_of: where the last of these arrays begins. */
  function OffsetOf(header: nat, capacity: nat, sizes: seq<nat>): (offset: nat)
    requires Sizes(sizes)
  {
    OffsetOfImpl(capacity, AlignUpwards(header, sizes[0]), sizes)
  }

  function SizeOf(header: nat, capacity: nat, sizes: seq<nat>): (size: nat)
    requires Sizes(sizes)
  {
    OffsetOf(header, capacity, sizes) + sizes[|sizes| - 1] * capacity
  }

  function OffsetsImpl(capacity: nat, acc: nat, sizes: seq<nat>, done: seq<nat>): (offsets: seq<nat>)
    requires Sizes(sizes)
    decreases |sizes|
  {
    if |sizes| == 1 then done + [acc]
    else OffsetsImpl(capacity, AlignUpwards(acc + sizes[0] * capacity, sizes[1]), sizes[1..], done + [acc])
  }

  /** offsets: where each of the arrays begins. */
  function Offsets(header: nat, capacity: nat, sizes: seq<nat>): (offsets: seq<nat>)
    requires Sizes(sizes)
  {
    OffsetsImpl(capacity, AlignUpwards(header, sizes[0]), sizes, [])
  }

  // ------------------------------------------------------- each from the one before

  /** Array i + 1 follows array i as closely as its alignment allows. */
  predicate Linked(capacity: nat, sizes: seq<nat>, offsets: seq<nat>) {
    |offsets| == |sizes| && Sizes(sizes) &&
    forall i :: 0 <= i < |sizes| - 1 ==> offsets[i + 1] == AlignUpwards(offsets[i] + sizes[i] * capacity, sizes[i + 1])
  }

  lemma {:induction false} ImplLinks(capacity: nat, acc: nat, sizes: seq<nat>, done: seq<nat>, before: seq<nat>)
    requires Sizes(sizes) && Sizes(before + sizes) && |done| == |before|
    requires Linked(capacity, before + [sizes[0]], done + [acc])
    ensures Linked(capacity, before + sizes, OffsetsImpl(capacity, acc, sizes, done))
    ensures OffsetsImpl(capacity, acc, sizes, done)[..|done| + 1] == done + [acc]
    decreases |sizes|
  {
    var next := before + [sizes[0]];
    if |sizes| == 1 {
      assert sizes == [sizes[0]];
    } else {
      var acc' := AlignUpwards(acc + sizes[0] * capacity, sizes[1]);
      assert next + sizes[1..] == before + sizes;
      LinkedNext(capacity, next, done + [acc], sizes[1], acc');
      ImplLinks(capacity, acc', sizes[1..], done + [acc], next);
      var all := OffsetsImpl(capacity, acc, sizes, done);
      assert all[..|done| + 1] == all[..|done| + 2][..|done| + 1];
    }
  }

  lemma LinkedNext(capacity: nat, sizes: seq<nat>, offsets: seq<nat>, size: nat, offset: nat)
    requires Linked(capacity, sizes, offsets) && size > 0
    requires offset == AlignUpwards(offsets[|offsets| - 1] + sizes[|sizes| - 1] * capacity, size)
    ensures Linked(capacity, sizes + [size], offsets + [offset])
  {
    var s, o := sizes + [size], offsets + [offset];
    forall i | 0 <= i < |s| - 1 ensures o[i + 1] == AlignUpwards(o[i] + s[i] * capacity, s[i + 1]) {
      if i < |sizes| - 1 { assert o[i + 1] == offsets[i + 1] && s[i + 1] == sizes[i + 1]; }
    }
  }

  lemma OffsetsLink(header: nat, capacity: nat, sizes: seq<nat>)
    requires Sizes(sizes)
    ensures var o := Offsets(header, capacity, sizes);
      Linked(capacity, sizes, o) && o[0] == AlignUpwards(header, sizes[0])
  {
    var acc := AlignUpwards(header, sizes[0]);
    assert [] + sizes == sizes && [] + [sizes[0]] == [sizes[0]] && [] + [acc] == [acc];
    ImplLinks(capacity, acc, sizes, [], []);
    assert Offsets(header, capacity, sizes)[..1][0] == acc;
  }

  /** offset_of on the arrays up to number i agrees with entry i of offsets. */
  lemma {:induction false} ImplAgrees(capacity: nat, sizes: seq<nat>, offsets: seq<nat>, from: nat, i: nat)
    requires Linked(capacity, sizes, offsets) && from <= i < |sizes|
    ensures Sizes(sizes[from..i + 1]) && OffsetOfImpl(capacity, offsets[from], sizes[from..i + 1]) == offsets[i]
    decreases i - from
  {
    var part := sizes[from..i + 1];
    assert forall k :: 0 <= k < |part| ==> part[k] == sizes[from + k];
    if from < i {
      assert part[1..] == sizes[from + 1..i + 1];
      ImplAgrees(capacity, sizes, offsets, from + 1, i);
    }
  }

  lemma OffsetsAgree(header: nat, capacity: nat, sizes: seq<nat>, i: nat)
    requires Sizes(sizes) && i < |sizes|
    ensures Sizes(sizes[..i + 1]) && |Offsets(header, capacity, sizes)| == |sizes|
    ensures OffsetOf(header, capacity, sizes[..i + 1]) == Offsets(header, capacity, sizes)[i]
  {
    OffsetsLink(header, capacity, sizes);
    assert sizes[0..i + 1] == sizes[..i + 1];
    ImplAgrees(capacity, sizes, Offsets(header, capacity, sizes), 0, i);
  }

  // ------------------------------------------------------------------ the layout

  lemma {:induction false} Ascending(capacity: nat, sizes: seq<nat>, offsets: seq<nat>, i: nat, j: nat)
    requires Linked(capacity, sizes, offsets) && i < j < |sizes|
    ensures offsets[i] + sizes[i] * capacity <= offsets[j]
    decreases j - i
  {
    AlignLaw(offsets[j - 1] + sizes[j - 1] * capacity, sizes[j]);
    assert offsets[j - 1 + 1] == AlignUpwards(offsets[j - 1] + sizes[j - 1] * capacity, sizes[j - 1 + 1]);
    if i < j - 1 { Ascending(capacity, sizes, offsets, i, j - 1); }
  }

  lemma Aligned(header: nat, capacity: nat, sizes: seq<nat>, i: nat)
    requires Sizes(sizes) && i < |sizes|
    ensures |Offsets(header, capacity, sizes)| == |sizes| && Multiple(Offsets(header, capacity, sizes)[i], sizes[i])
  {
    var o := Offsets(header, capacity, sizes);
    OffsetsLink(header, capacity, sizes);
    if i == 0 {
      AlignLaw(header, sizes[0]);
    } else {
      assert o[i - 1 + 1] == AlignUpwards(o[i - 1] + sizes[i - 1] * capacity, sizes[i - 1 + 1]);
      AlignLaw(o[i - 1] + sizes[i - 1] * capacity, sizes[i]);
    }
  }

  lemma LastEnds(header: nat, capacity: nat, sizes: seq<nat>)
    requires Sizes(sizes)
    ensures var o := Offsets(header, capacity, sizes);
      |o| == |sizes| && o[|o| - 1] + sizes[|o| - 1] * capacity == SizeOf(header, capacity, sizes)
  {
    OffsetsAgree(header, capacity, sizes, |sizes| - 1);
    assert sizes[..|sizes|] == sizes;
  }

  lemma BehindHeader(header: nat, capacity: nat, sizes: seq<nat>, i: nat)
    requires Sizes(sizes) && i < |sizes|
    ensures |Offsets(header, capacity, sizes)| == |sizes| && header <= Offsets(header, capacity, sizes)[i]
  {
    OffsetsLink(header, capacity, sizes);
    AlignLaw(header, sizes[0]);
    if i > 0 { Ascending(capacity, sizes, Offsets(header, capacity, sizes), 0, i); }
  }

  /** The arrays lie behind the header, one behind the other, aligned, and the block
      ends with the last. */
  lemma LayoutLaw(header: nat, capacity: nat, sizes: seq<nat>)
    requires Sizes(sizes)
    ensures var o := Offsets(header, capacity, sizes);
      && |o| == |sizes|
      && (forall i :: 0 <= i < |o| ==> header <= o[i])
      && (forall i, j :: 0 <= i < j < |o| ==> o[i] + sizes[i] * capacity <= o[j])
      && (forall i :: 0 <= i < |o| ==> Multiple(o[i], sizes[i]))
      && o[|o| - 1] + sizes[|o| - 1] * capacity == SizeOf(header, capacity, sizes)
  {
    var o := Offsets(header, capacity, sizes);
    OffsetsLink(header, capacity, sizes);
    LastEnds(header, capacity, sizes);
    forall i, j | 0 <= i < j < |o| ensures o[i] + sizes[i] * capacity <= o[j] { Ascending(capacity, sizes, o, i, j); }
    forall i | 0 <= i < |o| ensures Multiple(o[i], sizes[i]) && header <= o[i] {
      Aligned(header, capacity, sizes, i);
      BehindHeader(header, capacity, sizes, i);
    }
  }

  lemma InsideBlock(header: nat, capacity: nat, sizes: seq<nat>, i: nat)
    requires Sizes(sizes) && i < |sizes|
    ensures var o := Offsets(header, capacity, sizes);
      |o| == |sizes| && o[i] + sizes[i] * capacity <= SizeOf(header, capacity, sizes)
  {
    LayoutLaw(header, capacity, sizes);
  }

  /** A byte belongs to one array only. */
  lemma Disjoint(header: nat, capacity: nat, sizes: seq<nat>, i: nat, j: nat, at: nat)
    requires Sizes(sizes) && i < |sizes| && j < |sizes| && |Offsets(header, capacity, sizes)| == |sizes|
    requires var o := Offsets(header, capacity, sizes);
      o[i] <= at < o[i] + sizes[i] * capacity && o[j] <= at < o[j] + sizes[j] * capacity
    ensures i == j
  {
    LayoutLaw(header, capacity, sizes);
  }

  /** The first array does not move when the capacity changes. */
  lemma FirstStays(header: nat, capacity: nat, other: nat, sizes: seq<nat>)
    requires Sizes(sizes)
    ensures |Offsets(header, capacity, sizes)| == |Offsets(header, other, sizes)| == |sizes|
    ensures Offsets(header, capacity, sizes)[0] == Offsets(header, other, sizes)[0]
  {
    OffsetsLink(header, capacity, sizes);
    OffsetsLink(header, other, sizes);
  }
}
