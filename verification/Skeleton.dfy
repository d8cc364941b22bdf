/** Posing an armature.  The joints stand in an array in preorder, each with the number
    of its children; the tree itself is nowhere stored.  Every tick walks the array once
    and computes the joints' matrices.  Which joints are above a joint is stated apart
    from that walk, by where their subtrees end. */
module Skeletons {

  /** The index past the next `need` subtrees from joint i on; past the end when joints
      are missing. */
  function End(nchildren: seq<nat>, i: nat, need: nat): (e: nat)
    ensures e >= i && (need > 0 ==> e > i)
    decreases |nchildren| - i
  {
    if need == 0 then i
    else if i >= |nchildren| then i + 1
    else End(nchildren, i + 1, need - 1 + nchildren[i])
  }

  /** Every joint's descendants are there. */
  predicate Forest(nchildren: seq<nat>) {
    forall i :: 0 <= i < |nchildren| ==> End(nchildren, i, 1) <= |nchildren|
  }

  /** Joint j is i or one of its descendants. */
  predicate Covers(nchildren: seq<nat>, i: nat, j: nat) {
    i <= j < End(nchildren, i, 1)
  }

  lemma {:induction false} EndAdds(nchildren: seq<nat>, i: nat, a: nat, b: nat)
    requires End(nchildren, i, a) <= |nchildren|
    ensures End(nchildren, i, a + b) == End(nchildren, End(nchildren, i, a), b)
    decreases |nchildren| - i
  {
    if a > 0 && i < |nchildren| { EndAdds(nchildren, i + 1, a - 1 + nchildren[i], b); }
  }

  lemma {:induction false} EndGrows(nchildren: seq<nat>, i: nat, a: nat, b: nat)
    requires a <= b
    ensures End(nchildren, i, a) <= End(nchildren, i, b)
    decreases |nchildren| - i
  {
    if a > 0 && i < |nchildren| { EndGrows(nchildren, i + 1, a - 1 + nchildren[i], b - 1 + nchildren[i]); }
  }

  /** The subtrees inside end inside. */
  lemma {:induction false} EndsInside(nchildren: seq<nat>, i: nat, need: nat, j: nat)
    requires i <= j < End(nchildren, i, need) <= |nchildren|
    ensures End(nchildren, j, 1) <= End(nchildren, i, need)
    decreases |nchildren| - i
  {
    if i < j {
      EndsInside(nchildren, i + 1, need - 1 + nchildren[i], j);
    } else {
      EndGrows(nchildren, i, 1, need);
    }
  }

  // ------------------------------------------------------------------ matrices

  /** How matrices multiply. */
  datatype Monoid<!M(!new)> = Monoid(one: M, mul: (M, M) -> M)

  ghost predicate Lawful<M(!new)>(m: Monoid<M>) {
    && (forall a :: m.mul(m.one, a) == a)
    && (forall a, b, c :: m.mul(m.mul(a, b), c) == m.mul(a, m.mul(b, c)))
  }

  /** The product of the poses of the joints from number i on whose subtree holds j. */
  function Chain<M(!new)>(m: Monoid<M>, nchildren: seq<nat>, poses: seq<M>, i: nat, j: nat): (p: M)
    requires i <= j < |poses|
    decreases j - i
  {
    if i == j then poses[j]
    else if Covers(nchildren, i, j) then m.mul(poses[i], Chain(m, nchildren, poses, i + 1, j))
    else Chain(m, nchildren, poses, i + 1, j)
  }

  /** Joints whose subtrees end before j do not matter to it. */
  lemma {:induction false} ChainSkips<M(!new)>(m: Monoid<M>, nchildren: seq<nat>, poses: seq<M>, i: nat, c: nat, j: nat)
    requires i <= c <= j < |poses| && forall k :: i <= k < c ==> End(nchildren, k, 1) <= c
    ensures Chain(m, nchildren, poses, i, j) == Chain(m, nchildren, poses, c, j)
    decreases c - i
  {
    if i < c { ChainSkips(m, nchildren, poses, i + 1, c, j); }
  }

  /** Below joint i, in its child at c: the parent's matrix comes first. */
  lemma ChainBelow<M(!new)>(m: Monoid<M>, nchildren: seq<nat>, poses: seq<M>, i: nat, need: nat, c: nat, j: nat,
                            parent: M)
    requires Lawful(m) && i < |nchildren| == |poses| && End(nchildren, i + 1, need) == c <= j < |poses|
    requires Covers(nchildren, i, j)
    ensures m.mul(m.mul(parent, poses[i]), Chain(m, nchildren, poses, c, j)) ==
      m.mul(parent, Chain(m, nchildren, poses, i, j))
  {
    forall k | i + 1 <= k < c ensures End(nchildren, k, 1) <= c { EndsInside(nchildren, i + 1, need, k); }
    ChainSkips(m, nchildren, poses, i + 1, c, j);
  }

  // ------------------------------------------------------------------ the update

  function Range(a: nat, b: nat): (s: seq<nat>)
    requires a <= b
  {
    seq(b - a, i requires 0 <= i < b - a => a + i)
  }

  lemma RangeJoins(a: nat, b: nat, c: nat)
    requires a <= b <= c
    ensures Range(a, b) + Range(b, c) == Range(a, c)
  {
  }

  /** The matrix every joint of a span gets. */
  ghost predicate Posed<M(!new)>(m: Monoid<M>, nchildren: seq<nat>, poses: seq<M>, i: nat, e: nat, parent: M,
                                 matrices: seq<M>) {
    |matrices| == |poses| && e <= |poses| &&
    forall j :: i <= j < e ==> matrices[j] == m.mul(parent, Chain(m, nchildren, poses, i, j))
  }

  lemma PosedBelow<M(!new)>(m: Monoid<M>, nchildren: seq<nat>, poses: seq<M>, i: nat, need: nat, c: nat, parent: M,
                            matrices: seq<M>)
    requires Lawful(m) && Forest(nchildren) && i < |nchildren| == |poses| && need < nchildren[i]
    requires c == End(nchildren, i + 1, need) < |nchildren|
    requires Posed(m, nchildren, poses, c, End(nchildren, c, 1), m.mul(parent, poses[i]), matrices)
    ensures End(nchildren, c, 1) == End(nchildren, i + 1, need + 1) <= End(nchildren, i, 1)
    ensures forall j :: c <= j < End(nchildren, c, 1) ==> matrices[j] == m.mul(parent, Chain(m, nchildren, poses, i, j))
  {
    EndAdds(nchildren, i + 1, need, 1);
    EndGrows(nchildren, i + 1, need + 1, nchildren[i]);
    forall j | c <= j < End(nchildren, c, 1) ensures matrices[j] == m.mul(parent, Chain(m, nchildren, poses, i, j)) {
      ChainBelow(m, nchildren, poses, i, need, c, j, parent);
    }
  }

  /** Child number need of joint i is there. */
  lemma ChildThere(nchildren: seq<nat>, i: nat, need: nat)
    requires Forest(nchildren) && i < |nchildren| && need < nchildren[i]
    ensures End(nchildren, i + 1, need) < |nchildren|
  {
    assert End(nchildren, i, 1) == End(nchildren, i + 1, nchildren[i]);
    EndGrows(nchildren, i + 1, need, nchildren[i]);
    EndAdds(nchildren, i + 1, need, nchildren[i] - need);
  }

  /** update of joint mei and its descendants: their matrices are the parent's times
      the poses from mei down, each is written once, and the index past them returned. */
  method Update<M(!new)>(m: Monoid<M>, nchildren: seq<nat>, poses: seq<M>, mei: nat, parent: M, matrices: array<M>)
    returns (childi: nat, ghost visits: seq<nat>)
    requires Lawful(m) && Forest(nchildren) && mei < |nchildren| == |poses| == matrices.Length
    modifies matrices
    ensures childi == End(nchildren, mei, 1) <= |nchildren| && visits == Range(mei, childi)
    ensures Posed(m, nchildren, poses, mei, childi, parent, matrices[..])
    ensures forall j :: 0 <= j < mei || childi <= j < matrices.Length ==> matrices[j] == old(matrices[j])
    decreases |nchildren| - mei
  {
    matrices[mei] := m.mul(parent, poses[mei]);
    ghost var mine := matrices[mei];
    childi := mei + 1;
    visits := [mei];
    assert visits == Range(mei, mei + 1);
    for i := 0 to nchildren[mei]
      invariant mei < childi == End(nchildren, mei + 1, i) <= |nchildren| && visits == Range(mei, childi)
      invariant matrices[mei] == mine && Posed(m, nchildren, poses, mei, childi, parent, matrices[..])
      invariant forall j :: 0 <= j < mei || childi <= j < matrices.Length ==> matrices[j] == old(matrices[j])
    {
      ChildThere(nchildren, mei, i);
      ghost var c := childi;
      ghost var below;
      childi, below := Update(m, nchildren, poses, childi, matrices[mei], matrices);
      RangeJoins(mei, c, childi);
      visits := visits + below;
      PosedBelow(m, nchildren, poses, mei, i, c, parent, matrices[..]);
    }
  }

  /** The loop over the roots: every joint gets the product of the poses from its root
      down to itself, and is visited once. */
  method UpdateAll<M(!new)>(m: Monoid<M>, nchildren: seq<nat>, poses: seq<M>, matrices: array<M>)
    returns (ghost visits: seq<nat>)
    requires Lawful(m) && Forest(nchildren) && |nchildren| == |poses| == matrices.Length
    modifies matrices
    ensures visits == Range(0, |nchildren|)
    ensures forall j :: 0 <= j < matrices.Length ==> matrices[j] == Chain(m, nchildren, poses, 0, j)
  {
    var rooti := 0;
    visits := [];
    while rooti < |nchildren|
      invariant rooti <= |nchildren| && visits == Range(0, rooti)
      invariant forall k :: 0 <= k < rooti ==> End(nchildren, k, 1) <= rooti
      invariant forall j :: 0 <= j < rooti ==> matrices[j] == Chain(m, nchildren, poses, 0, j)
      decreases |nchildren| - rooti
    {
      ghost var start, below := rooti, [];
      rooti, below := Update(m, nchildren, poses, rooti, m.one, matrices);
      RangeJoins(0, start, rooti);
      visits := visits + below;
      forall k | start <= k < rooti ensures End(nchildren, k, 1) <= rooti { EndsInside(nchildren, start, 1, k); }
      forall j | start <= j < rooti ensures matrices[j] == Chain(m, nchildren, poses, 0, j) {
        ChainSkips(m, nchildren, poses, 0, start, j);
        assert matrices[..][j] == m.mul(m.one, Chain(m, nchildren, poses, start, j));
      }
    }
  }

  /** The joint above j: the last one before it whose subtree holds it. */
  function ParentFrom(nchildren: seq<nat>, i: nat, j: nat): (p: int)
    requires i <= j
    ensures -1 <= p < i && (p >= 0 ==> Covers(nchildren, p, j))
    ensures forall k :: p < k < i ==> !Covers(nchildren, k, j)
  {
    if i == 0 then -1 else if Covers(nchildren, i - 1, j) then i - 1 else ParentFrom(nchildren, i - 1, j)
  }

  function Parent(nchildren: seq<nat>, j: nat): (p: int) {
    ParentFrom(nchildren, j, j)
  }

  /** A joint's matrix is its parent's times its own pose; a root's is its pose. */
  lemma ChainOfParent<M(!new)>(m: Monoid<M>, nchildren: seq<nat>, poses: seq<M>, j: nat)
    requires Lawful(m) && Forest(nchildren) && j < |poses| == |nchildren|
    ensures var p := Parent(nchildren, j);
      Chain(m, nchildren, poses, 0, j) == if p < 0 then poses[j] else m.mul(Chain(m, nchildren, poses, 0, p), poses[j])
  {
    var p := Parent(nchildren, j);
    if p < 0 { NoneAbove(m, nchildren, poses, 0, j); } else { SplitAtParent(m, nchildren, poses, 0, p, j); }
  }

  lemma {:induction false} NoneAbove<M(!new)>(m: Monoid<M>, nchildren: seq<nat>, poses: seq<M>, i: nat, j: nat)
    requires i <= j < |poses| && forall k :: i <= k < j ==> !Covers(nchildren, k, j)
    ensures Chain(m, nchildren, poses, i, j) == poses[j]
    decreases j - i
  {
    if i < j { NoneAbove(m, nchildren, poses, i + 1, j); }
  }

  lemma {:induction false} SplitAtParent<M(!new)>(m: Monoid<M>, nchildren: seq<nat>, poses: seq<M>, i: nat, p: nat,
                                                  j: nat)
    requires Lawful(m) && Forest(nchildren) && i <= p < j < |poses| == |nchildren| && Covers(nchildren, p, j)
    requires forall k :: p < k < j ==> !Covers(nchildren, k, j)
    ensures Chain(m, nchildren, poses, i, j) == m.mul(Chain(m, nchildren, poses, i, p), poses[j])
    decreases p - i
  {
    if i == p {
      NoneAbove(m, nchildren, poses, p + 1, j);
    } else {
      SplitAtParent(m, nchildren, poses, i + 1, p, j);
      SameAncestors(nchildren, i, p, j);
    }
  }

  /** What lies above a joint's parent lies above the joint, and nothing else does. */
  lemma SameAncestors(nchildren: seq<nat>, i: nat, p: nat, j: nat)
    requires Forest(nchildren) && i < p < j < |nchildren| && Covers(nchildren, p, j)
    ensures Covers(nchildren, i, p) <==> Covers(nchildren, i, j)
  {
    if Covers(nchildren, i, p) { EndsInside(nchildren, i, 1, p); }
  }

  // ------------------------------------------------------------------ the forest

  /** Trees side by side: the first one's children, and the trees beside it. */
  datatype Trees = NoTree | Tree(children: Trees, others: Trees)

  function Count(ts: Trees): (n: nat) {
    match ts
    case NoTree => 0
    case Tree(_, others) => 1 + Count(others)
  }

  /** The joints of trees in preorder. */
  function Flatten(ts: Trees): (nchildren: seq<nat>) {
    match ts
    case NoTree => []
    case Tree(children, others) => [Count(children)] + Flatten(children) + Flatten(others)
  }

  /** The joints `part` stand in `all` from place at on. */
  predicate Stands(all: seq<nat>, at: nat, part: seq<nat>) {
    at + |part| <= |all| && forall k :: 0 <= k < |part| ==> all[at + k] == part[k]
  }

  lemma StandsInside(all: seq<nat>, at: nat, part: seq<nat>, from: nat, sub: seq<nat>)
    requires Stands(all, at, part) && from + |sub| <= |part| && forall k :: 0 <= k < |sub| ==> part[from + k] == sub[k]
    ensures Stands(all, at + from, sub)
  {
    forall k | 0 <= k < |sub| ensures all[at + from + k] == sub[k] { assert all[at + (from + k)] == part[from + k]; }
  }

  lemma Pieces(all: seq<nat>, at: nat, n: nat, a: seq<nat>, b: seq<nat>)
    requires Stands(all, at, [n] + a + b)
    ensures at + 1 + |a| + |b| <= |all| && all[at] == n && Stands(all, at + 1, a) && Stands(all, at + 1 + |a|, b)
  {
    var whole := [n] + a + b;
    assert all[at + 0] == whole[0];
    StandsInside(all, at, whole, 1, a);
    StandsInside(all, at, whole, 1 + |a|, b);
  }

  lemma EndNext(all: seq<nat>, i: nat, more: nat, e: nat)
    requires i < |all| && e == End(all, i + 1, all[i]) <= |all|
    ensures End(all, i, 1 + more) == End(all, e, more)
  {
    EndAdds(all, i + 1, all[i], more);
  }

  /** Where trees stand in preorder, they end where their joints do. */
  lemma {:induction false} FlattenEnds(ts: Trees, all: seq<nat>, at: nat)
    requires Stands(all, at, Flatten(ts))
    ensures End(all, at, Count(ts)) == at + |Flatten(ts)|
    decreases ts
  {
    match ts
    case NoTree =>
    case Tree(children, others) =>
      var c := at + 1 + |Flatten(children)|;
      Pieces(all, at, Count(children), Flatten(children), Flatten(others));
      FlattenEnds(children, all, at + 1);
      FlattenEnds(others, all, c);
      EndNext(all, at, Count(others), c);
  }

  /** Every forest of trees is laid out as the update needs it. */
  lemma FlattenIsForest(ts: Trees)
    ensures Forest(Flatten(ts))
  {
    var all := Flatten(ts);
    FlattenEnds(ts, all, 0);
    forall i | 0 <= i < |all| ensures End(all, i, 1) <= |all| { EndsInside(all, 0, Count(ts), i); }
  }

  /** The products of the poses taken recursively down the trees, in preorder. */
  function Products<M(!new)>(m: Monoid<M>, ts: Trees, poses: seq<M>, at: nat, parent: M): (ps: seq<M>)
    requires at + |Flatten(ts)| <= |poses|
    ensures |ps| == |Flatten(ts)|
    decreases ts
  {
    match ts
    case NoTree => []
    case Tree(children, others) =>
      var mine := m.mul(parent, poses[at]);
      [mine] + Products(m, children, poses, at + 1, mine) +
        Products(m, others, poses, at + 1 + |Flatten(children)|, parent)
  }

  lemma ChainInside<M(!new)>(m: Monoid<M>, all: seq<nat>, poses: seq<M>, at: nat, j: nat, parent: M)
    requires Lawful(m) && at < j < |poses| && Covers(all, at, j)
    ensures m.mul(m.mul(parent, poses[at]), Chain(m, all, poses, at + 1, j)) ==
      m.mul(parent, Chain(m, all, poses, at, j))
  {
  }

  /** Trees before do not matter to a joint. */
  lemma ChainBehind<M(!new)>(m: Monoid<M>, all: seq<nat>, poses: seq<M>, at: nat, need: nat, c: nat, j: nat)
    requires c == End(all, at, need) <= |all| && c <= j < |poses|
    ensures Chain(m, all, poses, at, j) == Chain(m, all, poses, c, j)
  {
    forall k | at <= k < c ensures End(all, k, 1) <= c { EndsInside(all, at, need, k); }
    ChainSkips(m, all, poses, at, c, j);
  }

  /** The entries of the products: the tree's own, those of its children, and those beside. */
  lemma ProductsOwn<M(!new)>(m: Monoid<M>, ts: Trees, poses: seq<M>, at: nat, parent: M)
    requires ts.Tree? && at + |Flatten(ts)| <= |poses|
    ensures Products(m, ts, poses, at, parent)[0] == m.mul(parent, poses[at])
  {
  }

  lemma ProductsInside<M(!new)>(m: Monoid<M>, ts: Trees, poses: seq<M>, at: nat, parent: M, i: nat)
    requires ts.Tree? && at + |Flatten(ts)| <= |poses| && i < |Flatten(ts.children)|
    ensures Products(m, ts, poses, at, parent)[1 + i] ==
      Products(m, ts.children, poses, at + 1, m.mul(parent, poses[at]))[i]
  {
  }

  lemma ProductsBeside<M(!new)>(m: Monoid<M>, ts: Trees, poses: seq<M>, at: nat, parent: M, i: nat)
    requires ts.Tree? && at + |Flatten(ts)| <= |poses| && i < |Flatten(ts.others)|
    ensures Products(m, ts, poses, at, parent)[1 + |Flatten(ts.children)| + i] ==
      Products(m, ts.others, poses, at + 1 + |Flatten(ts.children)|, parent)[i]
  {
  }

  /** The first tree: its joints' place, its children's, and that of the trees beside it. */
  lemma FirstTree(ts: Trees, all: seq<nat>, at: nat, c: nat)
    requires ts.Tree? && Stands(all, at, Flatten(ts)) && c == at + 1 + |Flatten(ts.children)|
    ensures |Flatten(ts)| == 1 + |Flatten(ts.children)| + |Flatten(ts.others)|
    ensures Stands(all, at + 1, Flatten(ts.children)) && Stands(all, c, Flatten(ts.others))
    ensures End(all, at, 1) == c <= |all|
  {
    Pieces(all, at, Count(ts.children), Flatten(ts.children), Flatten(ts.others));
    FlattenEnds(ts.children, all, at + 1);
    EndNext(all, at, 0, c);
  }

  /** Where trees stand in preorder, the products down the trees are those of the joints
      whose subtree holds the joint. */
  lemma {:induction false} ProductsAre<M(!new)>(m: Monoid<M>, ts: Trees, all: seq<nat>, poses: seq<M>, at: nat,
                                                parent: M, j: nat)
    requires Lawful(m) && |all| == |poses| && Stands(all, at, Flatten(ts)) && at <= j < at + |Flatten(ts)|
    ensures Products(m, ts, poses, at, parent)[j - at] == m.mul(parent, Chain(m, all, poses, at, j))
    decreases ts
  {
    var c := at + 1 + |Flatten(ts.children)|;
    FirstTree(ts, all, at, c);
    if j == at {
      ProductsOwn(m, ts, poses, at, parent);
    } else if j < c {
      ProductsInside(m, ts, poses, at, parent, j - at - 1);
      ProductsAre(m, ts.children, all, poses, at + 1, m.mul(parent, poses[at]), j);
      ChainInside(m, all, poses, at, j, parent);
    } else {
      ProductsBeside(m, ts, poses, at, parent, j - c);
      ProductsAre(m, ts.others, all, poses, c, parent, j);
      ChainBehind(m, all, poses, at, 1, c, j);
    }
  }

  /** What the update computes for joint j of a forest of trees laid out in preorder. */
  lemma ForestProducts<M(!new)>(m: Monoid<M>, ts: Trees, poses: seq<M>, j: nat)
    requires Lawful(m) && j < |poses| == |Flatten(ts)|
    ensures Chain(m, Flatten(ts), poses, 0, j) == Products(m, ts, poses, 0, m.one)[j]
  {
    ProductsAre(m, ts, Flatten(ts), poses, 0, m.one, j);
  }

  // ---------------------------------------------------------------- playing back

  lemma RemainderOfSelf(n: nat)
    requires n > 0
    ensures n % n == 0
  {
  }

  class Playback<M(!new)> {
    const m: Monoid<M>
    const nchildren: seq<nat>
    const repeat: bool
    /** The poses of the joints, frame by frame; no frames while no action is set. */
    var frames: seq<seq<M>>
    var finished: bool
    var framei: nat
    const matrices: array<M>

    constructor (m: Monoid<M>, nchildren: seq<nat>, repeat: bool)
      ensures this.m == m && this.nchildren == nchildren && this.repeat == repeat
      ensures frames == [] && !finished && framei == 0
      ensures fresh(matrices) && matrices.Length == |nchildren|
    {
      this.m, this.nchildren, this.repeat := m, nchildren, repeat;
      frames, finished, framei := [], false, 0;
      matrices := new M[|nchildren|](_ => m.one);
    }

    ghost predicate Valid()
      reads this
    {
      && Lawful(m) && Forest(nchildren) && matrices.Length == |nchildren|
      && (frames != [] ==> framei < |frames|) && (forall f :: 0 <= f < |frames| ==> |frames[f]| == |nchildren|)
    }

    /** A tick: the next frame, from the first again after the last, and the poses of
        that frame.  An action that does not repeat is finished then. */
    method Tick()
      requires Valid()
      modifies this`finished, this`framei, matrices
      ensures Valid() && frames == old(frames)
      ensures frames == [] ==> framei == old(framei) && finished == old(finished) && matrices[..] == old(matrices[..])
      ensures frames != [] ==> framei == if old(framei) + 1 == |frames| then 0 else old(framei) + 1
      ensures frames != [] ==> (finished <==> old(finished) || (!repeat && old(framei) == |frames| - 1))
      ensures frames != [] ==> forall j :: 0 <= j < matrices.Length ==>
        matrices[j] == Chain(m, nchildren, frames[framei], 0, j)
    {
      if |frames| == 0 { return; }
      framei := framei + 1;
      if framei >= |frames| {
        if !repeat { finished := true; }
        RemainderOfSelf(|frames|);
        framei := framei % |frames|;
      }
      ghost var visits := UpdateAll(m, nchildren, frames[framei], matrices);
    }
  }
}
