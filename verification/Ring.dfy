/** One ring of cells with its three indices, between calls: the part SimpleQueue
    and the pages of PageQueue have in common. */
module RingStates {

  import opened Residues
  import opened Cells

  datatype RingState<T> = RingState(cap: nat, readi: nat, readendi: nat, writei: nat, cells: seq<Cell<T>>)

  function EmptyRing<T>(cap: nat): (r: RingState<T>)
    ensures Holds(r, [])
  {
    RingState(cap, 0, 0, 0, seq(cap, _ => Raw))
  }

  /** Every check-out has been checked in. */
  predicate Indices<T>(r: RingState<T>) {
    && |r.cells| == r.cap
    && r.readendi == r.writei
    && (if r.cap == 0 then r.readi == r.writei == 0 else r.readi < r.cap && r.writei < r.cap)
  }

  function Len<T>(r: RingState<T>): (n: nat)
    requires Indices(r)
  {
    if r.readi <= r.writei then r.writei - r.readi else r.writei + r.cap - r.readi
  }

  /** The cell k places after the oldest one. */
  function At<T>(r: RingState<T>, k: nat): (i: nat)
    requires Indices(r) && k < r.cap
  {
    if r.readi + k < r.cap then r.readi + k else r.readi + k - r.cap
  }

  /** The ring holds exactly vs, oldest first, and its other cells are raw. */
  ghost predicate Holds<T>(r: RingState<T>, vs: seq<T>) {
    && Indices(r)
    && |vs| == Len(r)
    && (forall k: nat :: k < |vs| ==> r.cells[At(r, k)] == Live(vs[k]))
    && (forall k: nat :: |vs| <= k < r.cap ==> r.cells[At(r, k)] == Raw)
  }

  /** checkout_write_slot finds no room. */
  predicate Full<T>(r: RingState<T>) {
    r.readi == WrapReset(r.writei + 1, r.cap)
  }

  /** try_pop finds nothing. */
  predicate Empty<T>(r: RingState<T>) {
    r.readi == r.readendi
  }

  /** Check out the next slot, build v in it, check it in. */
  function Push<T>(r: RingState<T>, v: T): (r': RingState<T>)
    requires Indices(r) && !Full(r)
  {
    var next := WrapReset(r.writei + 1, r.cap);
    r.(writei := next, cells := r.cells[r.writei := Live(v)], readendi := next)
  }

  /** Take the oldest cell. */
  function Pop<T>(r: RingState<T>): (r': RingState<T>)
    requires Indices(r) && !Empty(r)
  {
    r.(cells := r.cells[r.readi := Raw], readi := WrapReset(r.readi + 1, r.cap))
  }

  /** A ring of cap cells is full exactly with cap - 1 values; pushing appends. */
  lemma PushAppends<T>(r: RingState<T>, vs: seq<T>, v: T)
    requires Holds(r, vs)
    ensures Full(r) <==> r.cap <= |vs| + 1
    ensures !Full(r) ==> Holds(Push(r, v), vs + [v])
  {
    if !Full(r) {
      var r' := Push(r, v);
      forall k: nat | k < r.cap
        ensures At(r', k) == At(r, k) && (At(r, k) == r.writei <==> k == |vs|)
      {
      }
    }
  }

  /** Popping takes from the front. */
  lemma PopTakesFirst<T>(r: RingState<T>, vs: seq<T>)
    requires Holds(r, vs)
    ensures Empty(r) <==> vs == []
    ensures !Empty(r) ==> r.cells[r.readi] == Live(vs[0]) && Holds(Pop(r), vs[1..])
  {
    if !Empty(r) {
      var r' := Pop(r);
      assert r.readi == At(r, 0);
      forall k: nat | k < r.cap
        ensures r'.cells[At(r', k)] == if k + 1 < |vs| then Live(vs[k + 1]) else Raw
      {
        assert At(r', k) == if k + 1 < r.cap then At(r, k + 1) else r.readi;
        assert k + 1 < r.cap ==> At(r, k + 1) != r.readi;
      }
    }
  }

  /** A ring of cap cells has room exactly below cap - 1 values, and then the cell
      written next is the raw one behind the newest value. */
  lemma FreeCell<T>(r: RingState<T>, vs: seq<T>)
    requires Holds(r, vs) && 0 < r.cap
    ensures r.writei < |r.cells| && (Full(r) <==> |vs| == r.cap - 1)
    ensures !Full(r) ==> r.writei == At(r, |vs|) && r.cells[r.writei].Raw?
  {
    assert Len(r) == |vs|;
    assert r.writei == At(r, |vs|);
  }

  /** A ring holds one sequence only. */
  lemma HoldsOne<T>(r: RingState<T>, vs: seq<T>, ws: seq<T>)
    requires Holds(r, vs) && Holds(r, ws)
    ensures vs == ws
  {
    forall k: nat | k < |vs| ensures vs[k] == ws[k] {
      assert r.cells[At(r, k)] == Live(vs[k]);
    }
  }

  /** The live cells lie from readi up to readendi, in one range or in two. */
  lemma LiveCells<T>(r: RingState<T>, vs: seq<T>)
    requires Holds(r, vs)
    ensures forall i :: 0 <= i < r.cap ==>
      (r.cells[i].Live? <==> if r.readi <= r.readendi then r.readi <= i < r.readendi
        else i < r.readendi || r.readi <= i)
    ensures r.readi <= r.readendi ==> Lives(vs) == r.cells[r.readi..r.readendi]
    ensures r.readendi < r.readi ==> Lives(vs) == r.cells[r.readi..] + r.cells[..r.readendi]
  {
    forall i | 0 <= i < r.cap
      ensures r.cells[i].Live? <==>
        if r.readi <= r.readendi then r.readi <= i < r.readendi else i < r.readendi || r.readi <= i
    {
      assert i == if r.readi <= i then At(r, i - r.readi) else At(r, i + r.cap - r.readi);
    }
    forall k: nat | k < |vs| ensures r.cells[At(r, k)] == Live(vs[k]) {
    }
  }
}

/** The bounded queue itself, with one caller at a time. */
module SimpleQueues {

  import opened Wrappers
  import opened Powers
  import opened Residues
  import opened Cells
  import opened RingStates

  /** The two ranges in either order. */
  lemma Halves<T>(cells: seq<Cell<T>>, low: seq<Cell<T>>, high: seq<Cell<T>>, readi: nat, readendi: nat,
                  all: seq<Cell<T>>)
    requires readendi <= readi <= |cells| && low == cells[..readendi] && high == cells[readi..]
    requires all == cells[readi..] + cells[..readendi]
    ensures multiset(low + high) == multiset(all)
  {
    assert multiset(low + high) == multiset(low) + multiset(high);
  }

  class SimpleQueue<T> {
    const cap: nat
    const cells: array<Cell<T>>
    var readi: nat
    var readendi: nat
    var writei: nat
    ghost var queued: seq<T>   // the queue, oldest value first

    ghost function State(): RingState<T>
      reads this, cells
    {
      RingState(cap, readi, readendi, writei, cells[..])
    }

    ghost predicate Valid()
      reads this, cells
    {
      0 < cap && Holds(State(), queued)
    }

    /** A size of zero would leave the ring without the cell it keeps free. */
    constructor (size: nat)
      requires 0 < size
      ensures Valid() && fresh(cells) && queued == []
      ensures IsPowerOfTwo(cap) && size <= cap < 2 * size
    {
      var n := PowerAtLeast(size);
      LeastPower(size);
      cap := n;
      cells := new Cell<T>[n](_ => Raw);
      readi, readendi, writei := 0, 0, 0;
      queued := [];
      new;
      assert State().cells == EmptyRing<T>(cap).cells;
    }

    function Capacity(): (n: nat)
      requires 0 < cap
    {
      cap - 1
    }

    /** checkout_write_slot, with nobody else to fail its compare-exchange: succeeds
        exactly below capacity, and then gives out a raw cell, the one behind the
        newest value. */
    method CheckoutWriteSlot() returns (ok: bool, slot: nat, next: nat)
      requires Valid()
      modifies this`writei
      ensures ok <==> |queued| < Capacity()
      ensures slot == old(writei) < cells.Length && next == WrapReset(slot + 1, cap)
      ensures ok ==> slot == At(old(State()), |queued|) && cells[slot].Raw?
      ensures writei == if ok then next else slot
    {
      FreeCell(State(), queued);
      slot := writei;
      var readi := this.readi;
      next := WrapReset(slot + 1, cap);
      if readi == next {
        return false, slot, next; // full
      }
      writei := next;
      ok := true;
    }

    /** checkin_write_slot, at this thread's turn. */
    method CheckinWriteSlot(slot: nat, next: nat)
      requires readendi == slot
      modifies this`readendi
      ensures readendi == next
    {
      if readendi == slot {
        readendi := next;
      }
    }

    /** Succeeds exactly while fewer than Capacity() values are queued. */
    method TryPush(v: T) returns (ok: bool)
      requires Valid()
      modifies this, cells
      ensures Valid()
      ensures ok <==> |old(queued)| < Capacity()
      ensures queued == if ok then old(queued) + [v] else old(queued)
    {
      PushAppends(State(), queued, v);
      var slot, next;
      ok, slot, next := CheckoutWriteSlot();
      if ok {
        cells[slot] := Live(v);
        CheckinWriteSlot(slot, next);
        queued := queued + [v];
        assert State() == Push(old(State()), v);
      }
    }

    method TryPop() returns (r: Option<T>)
      requires Valid()
      modifies this, cells
      ensures Valid()
      ensures r.None? <==> old(queued) == []
      ensures r.None? ==> queued == old(queued)
      ensures r.Some? ==> old(queued) == [r.value] + queued
    {
      PopTakesFirst(State(), queued);
      var slot := readi;
      var barrier := readendi;
      if slot == barrier {
        return None;
      }
      r := Some(cells[slot].value);
      cells[slot] := Raw;
      readi := WrapReset(slot + 1, cap);
      queued := queued[1..];
      assert State() == Pop(old(State()));
    }

    /** The destructor destroys each queued value once and touches no raw cell. */
    method DestructAll() returns (ghost destroyed: seq<Cell<T>>)
      requires Valid()
      modifies cells
      ensures forall i :: 0 <= i < cap ==> cells[i].Raw?
      ensures multiset(destroyed) == multiset(Lives(queued))
    {
      ghost var was := cells[..];
      LiveCells(State(), queued);
      if readendi < readi {
        ghost var low := DestructRange(0, readendi);
        ghost var high := DestructRange(readi, cap);
        Halves(was, low, high, readi, readendi, Lives(queued));
        destroyed := low + high;
      } else {
        destroyed := DestructRange(readi, readendi);
      }
    }

    method DestructRange(from: nat, to: nat) returns (ghost destroyed: seq<Cell<T>>)
      requires from <= to <= cells.Length
      requires forall i :: from <= i < to ==> cells[i].Live?
      modifies cells
      ensures forall i :: 0 <= i < cells.Length ==> cells[i] == if from <= i < to then Raw else old(cells[i])
      ensures destroyed == old(cells[from..to])
    {
      ghost var was := cells[..];
      destroyed := [];
      var i := from;
      while i < to
        invariant from <= i <= to
        invariant forall j :: 0 <= j < cells.Length ==> cells[j] == if from <= j < i then Raw else was[j]
        invariant destroyed == was[from..i]
      {
        destroyed := destroyed + [cells[i]];
        cells[i] := Raw;
        i := i + 1;
      }
    }
  }
}
