/** An unbounded queue of chained rings. */
module PageQueues {

  import opened Wrappers
  import opened Powers
  import opened Cells
  import opened RingStates

  // At the granularity of whole calls.  Pages live at addresses; `memory` is what is
  // allocated right now, so reading a page that was given back, or giving one back
  // twice, is not expressible.

  type Address = nat

  /** The shared empty header, its own predecessor. */
  const EMPTY: Address := 0

  datatype Page<T> = Page(previous: Address, ring: RingState<T>)

  /** Values kept page by page, read as one queue. */
  function Flatten<T>(vss: seq<seq<T>>): (vs: seq<T>) {
    if vss == [] then [] else vss[0] + Flatten(vss[1..])
  }

  lemma {:induction false} FlattenLast<T>(vss: seq<seq<T>>, last: seq<T>)
    ensures Flatten(vss + [last]) == Flatten(vss) + last
  {
    if vss == [] {
      assert vss + [last] == [last];
    } else {
      assert (vss + [last])[1..] == vss[1..] + [last];
      FlattenLast(vss[1..], last);
    }
  }

  lemma FlattenUpdateLast<T>(vss: seq<seq<T>>, v: T)
    requires vss != []
    ensures var n := |vss| - 1; Flatten(vss[n := vss[n] + [v]]) == Flatten(vss) + [v]
  {
    var n := |vss| - 1;
    FlattenLast(vss[..n], vss[n]);
    FlattenLast(vss[..n], vss[n] + [v]);
    assert vss == vss[..n] + [vss[n]] && vss[n := vss[n] + [v]] == vss[..n] + [vss[n] + [v]];
  }

  /** `chain` are the linked pages from the oldest on, and `held` what each holds. */
  ghost predicate Chained<T>(memory: map<Address, Page<T>>, chain: seq<Address>, held: seq<seq<T>>) {
    && |held| == |chain|
    && (forall i :: 0 <= i < |chain| ==> chain[i] != EMPTY && chain[i] in memory)
    && (forall i, j :: 0 <= i < j < |chain| ==> chain[i] != chain[j])
    && (forall i :: 0 <= i < |chain| ==> PageOk(memory, chain, held, i))
  }

  /** Every page links to the one before it; every page but the oldest can hold
      something, and is full unless it is the newest. */
  ghost predicate PageOk<T>(memory: map<Address, Page<T>>, chain: seq<Address>, held: seq<seq<T>>, i: nat)
    requires i < |chain| == |held| && chain[i] in memory
  {
    var page := memory[chain[i]];
    && page.previous == (if i == 0 then EMPTY else chain[i - 1])
    && Holds(page.ring, held[i])
    && 0 < page.ring.cap
    && (0 < i ==> 1 < page.ring.cap)
    && (0 < i < |chain| - 1 ==> |held[i]| == page.ring.cap - 1)
  }

  /** Changing what the newest page holds leaves the chain in order. */
  lemma ChainedUpdateNewest<T>(memory: map<Address, Page<T>>, chain: seq<Address>, held: seq<seq<T>>,
                               ring: RingState<T>, vs: seq<T>)
    requires Chained(memory, chain, held) && chain != []
    requires Holds(ring, vs) && ring.cap == memory[chain[|chain| - 1]].ring.cap
    ensures var n := |chain| - 1;
      Chained(memory[chain[n] := memory[chain[n]].(ring := ring)], chain, held[n := vs])
  {
    var n := |chain| - 1;
    var memory' := memory[chain[n] := memory[chain[n]].(ring := ring)];
    var held' := held[n := vs];
    forall i | 0 <= i < |chain| ensures PageOk(memory', chain, held', i) {
      assert PageOk(memory, chain, held, i);
    }
  }

  lemma ChainedUpdateOldest<T>(memory: map<Address, Page<T>>, chain: seq<Address>, held: seq<seq<T>>,
                               ring: RingState<T>, vs: seq<T>)
    requires Chained(memory, chain, held) && chain != []
    requires Holds(ring, vs) && ring.cap == memory[chain[0]].ring.cap
    ensures Chained(memory[chain[0] := memory[chain[0]].(ring := ring)], chain, held[0 := vs])
  {
    var memory' := memory[chain[0] := memory[chain[0]].(ring := ring)];
    var held' := held[0 := vs];
    forall i | 0 <= i < |chain| ensures PageOk(memory', chain, held', i) {
      assert PageOk(memory, chain, held, i);
    }
  }

  /** Without its oldest page the rest is still a chain. */
  lemma ChainedUnlink<T>(memory: map<Address, Page<T>>, chain: seq<Address>, held: seq<seq<T>>)
    requires Chained(memory, chain, held) && |chain| > 1
    ensures Chained(memory[chain[1] := memory[chain[1]].(previous := EMPTY)] - {chain[0]}, chain[1..], held[1..])
  {
    var memory' := memory[chain[1] := memory[chain[1]].(previous := EMPTY)] - {chain[0]};
    forall i | 0 <= i < |chain| - 1 ensures PageOk(memory', chain[1..], held[1..], i) {
      assert PageOk(memory, chain, held, i + 1);
    }
  }

  /** Without its newest page the rest is still a chain. */
  lemma ChainedDropNewest<T>(memory: map<Address, Page<T>>, chain: seq<Address>, held: seq<seq<T>>)
    requires Chained(memory, chain, held) && chain != []
    ensures var n := |chain| - 1; Chained(memory - {chain[n]}, chain[..n], held[..n])
  {
    var n := |chain| - 1;
    forall i | 0 <= i < n ensures PageOk(memory - {chain[n]}, chain[..n], held[..n], i) {
      assert PageOk(memory, chain, held, i);
    }
  }

  /** The pages allocated are the linked ones, and the newest one is written to. */
  ghost predicate Rooted<T>(memory: map<Address, Page<T>>, writeHeader: Address, chain: seq<Address>) {
    && EMPTY in memory && memory[EMPTY] == Page(EMPTY, EmptyRing(0))
    && memory.Keys == {EMPTY} + (set a | a in chain)
    && writeHeader == Last(chain)
  }

  ghost function Last(chain: seq<Address>): Address {
    if chain == [] then EMPTY else chain[|chain| - 1]
  }

  /** Every page obtained (they get the addresses 1, 2, ...) is either linked or was
      freed, and none was freed twice. */
  ghost predicate Accounted(issued: nat, chain: seq<Address>, freed: seq<Address>) {
    && (forall a :: 1 <= a <= issued <==> a in chain || a in freed)
    && (forall a :: a in chain ==> a !in freed)
    && (forall i, j :: 0 <= i < j < |freed| ==> freed[i] != freed[j])
  }

  lemma AccountedGrow(issued: nat, chain: seq<Address>, freed: seq<Address>)
    requires Accounted(issued, chain, freed)
    ensures Accounted(issued + 1, chain + [issued + 1], freed)
  {
  }

  lemma Ends(chain: seq<Address>, a: Address, rest: seq<Address>)
    requires chain == [a] + rest || chain == rest + [a]
    requires forall i, j :: 0 <= i < j < |chain| ==> chain[i] != chain[j]
    ensures a in chain && a !in rest && forall b :: b in chain <==> b == a || b in rest
  {
    assert forall b :: b in chain <==> b == a || b in rest;
    forall k | 0 <= k < |rest| ensures rest[k] != a {
      if chain == [a] + rest {
        assert rest[k] == chain[k + 1] && a == chain[0];
      } else {
        assert rest[k] == chain[k] && a == chain[|rest|];
      }
    }
  }

  lemma AccountedFree(issued: nat, chain: seq<Address>, freed: seq<Address>, a: Address, rest: seq<Address>)
    requires Accounted(issued, chain, freed)
    requires chain == [a] + rest || chain == rest + [a]
    requires forall i, j :: 0 <= i < j < |chain| ==> chain[i] != chain[j]
    ensures Accounted(issued, rest, freed + [a])
  {
    Ends(chain, a, rest);
  }

  /** Giving back a page at either end of the chain. */
  lemma RootedFree<T>(memory: map<Address, Page<T>>, writeHeader: Address, chain: seq<Address>, a: Address,
                      rest: seq<Address>)
    requires Rooted(memory, writeHeader, chain) && a != EMPTY
    requires chain == [a] + rest || chain == rest + [a]
    requires forall i, j :: 0 <= i < j < |chain| ==> chain[i] != chain[j]
    ensures Rooted(memory - {a}, Last(rest), rest)
  {
    Ends(chain, a, rest);
  }

  lemma RootedUpdate<T>(memory: map<Address, Page<T>>, writeHeader: Address, chain: seq<Address>, a: Address,
                        page: Page<T>)
    requires Rooted(memory, writeHeader, chain) && a in chain && a != EMPTY
    ensures Rooted(memory[a := page], writeHeader, chain)
  {
  }

  lemma RootedGrow<T>(memory: map<Address, Page<T>>, writeHeader: Address, chain: seq<Address>, a: Address,
                      page: Page<T>)
    requires Rooted(memory, writeHeader, chain) && a != EMPTY
    ensures Rooted(memory[a := page], a, chain + [a])
  {
  }

  ghost predicate Room<T>(memory: map<Address, Page<T>>, writeHeader: Address, held: seq<seq<T>>)
    requires writeHeader in memory
  {
    |NewestHeld(held)| + 1 < memory[writeHeader].ring.cap
  }

  ghost function NewestHeld<T>(held: seq<seq<T>>): seq<T> {
    if held == [] then [] else held[|held| - 1]
  }

  /** The ring written to is full exactly without room, and takes another value otherwise. */
  lemma NewestRing<T>(memory: map<Address, Page<T>>, writeHeader: Address, chain: seq<Address>, held: seq<seq<T>>, v: T)
    requires Rooted(memory, writeHeader, chain) && Chained(memory, chain, held)
    ensures var ring := memory[writeHeader].ring;
      && (Full(ring) <==> !Room(memory, writeHeader, held))
      && (!Full(ring) ==> chain != [] && Holds(ring, NewestHeld(held)) && Holds(Push(ring, v), NewestHeld(held) + [v]))
  {
    if chain != [] { assert PageOk(memory, chain, held, |chain| - 1); }
    PushAppends(memory[writeHeader].ring, NewestHeld(held), v);
  }

  /** A new page may be linked once the newest one is full. */
  lemma ChainedLink<T>(memory: map<Address, Page<T>>, chain: seq<Address>, held: seq<seq<T>>, a: Address, cap: nat)
    requires Chained(memory, chain, held) && a != EMPTY && a !in chain
    requires 0 < cap
    requires chain != [] ==>
      1 < cap && |NewestHeld(held)| + 1 >= memory[Last(chain)].ring.cap
    ensures Chained(memory[a := Page(Last(chain), EmptyRing(cap))], chain + [a], held + [[]])
  {
    var memory', chain', held' := memory[a := Page(Last(chain), EmptyRing(cap))], chain + [a], held + [[]];
    forall i | 0 <= i < |chain'| ensures PageOk(memory', chain', held', i) {
      if i < |chain| { assert PageOk(memory, chain, held, i); }
    }
  }

  lemma ChainedGrow<T>(memory: map<Address, Page<T>>, writeHeader: Address, chain: seq<Address>, held: seq<seq<T>>,
                       a: Address)
    requires Rooted(memory, writeHeader, chain) && Chained(memory, chain, held)
    requires a != EMPTY && a !in chain && !Room(memory, writeHeader, held)
    ensures var page := Page(writeHeader, EmptyRing(PowerAtLeast(memory[writeHeader].ring.cap + 1)));
      Chained(memory[a := page], chain + [a], held + [[]])
  {
    if chain != [] { assert PageOk(memory, chain, held, |chain| - 1); }
    ChainedLink(memory, chain, held, a, PowerAtLeast(memory[writeHeader].ring.cap + 1));
  }

  /** The oldest ring is empty exactly if the oldest page holds nothing. */
  lemma OldestRing<T>(memory: map<Address, Page<T>>, chain: seq<Address>, held: seq<seq<T>>)
    requires Chained(memory, chain, held) && chain != []
    ensures var ring := memory[chain[0]].ring;
      && Holds(ring, held[0])
      && (Empty(ring) <==> held[0] == [])
      && (!Empty(ring) ==> ring.cells[ring.readi] == Live(held[0][0]) && Holds(Pop(ring), held[0][1..]))
  {
    assert PageOk(memory, chain, held, 0);
    PopTakesFirst(memory[chain[0]].ring, held[0]);
  }

  lemma FreeNewestOk<T>(memory: map<Address, Page<T>>, header: Address, chain: seq<Address>, held: seq<seq<T>>,
                        issued: nat, freed: seq<Address>)
    requires Rooted(memory, header, chain) && Chained(memory, chain, held) && Accounted(issued, chain, freed)
    requires header != EMPTY
    ensures var n := |chain| - 1;
      && 0 <= n
      && Rooted(memory - {header}, memory[header].previous, chain[..n])
      && Chained(memory - {header}, chain[..n], held[..n])
      && Accounted(issued, chain[..n], freed + [header])
  {
    var n := |chain| - 1;
    assert PageOk(memory, chain, held, n);
    assert memory[header].previous == Last(chain[..n]);
    ChainedDropNewest(memory, chain, held);
    RootedFree(memory, header, chain, header, chain[..n]);
    AccountedFree(issued, chain, freed, header, chain[..n]);
  }

  class PageQueue<T> {
    var memory: map<Address, Page<T>>
    var writeHeader: Address
    var issued: nat

    ghost var chain: seq<Address>
    ghost var held: seq<seq<T>>
    ghost var freed: seq<Address>   // pages given back, in order

    ghost predicate Valid()
      reads this
    {
      Rooted(memory, writeHeader, chain) && Chained(memory, chain, held) && Accounted(issued, chain, freed)
    }

    /** The queue, oldest value first. */
    ghost function Contents(): (vs: seq<T>)
      reads this
    {
      Flatten(held)
    }

    constructor ()
      ensures Valid() && Contents() == [] && issued == 0 && freed == []
    {
      memory := map[EMPTY := Page(EMPTY, EmptyRing(0))];
      writeHeader, issued := EMPTY, 0;
      chain, held, freed := [], [], [];
    }

    constructor WithCapacity(capacity: nat)
      requires 0 < capacity
      ensures Valid() && Contents() == [] && issued == 1 && freed == []
    {
      memory := map[EMPTY := Page(EMPTY, EmptyRing(0)), 1 := Page(EMPTY, EmptyRing(PowerAtLeast(capacity)))];
      writeHeader, issued := 1, 1;
      chain, held, freed := [1], [[]], [];
    }

    /** Room is left in the page written to. */
    ghost predicate HasRoom()
      requires writeHeader in memory
      reads this
    {
      Room(memory, writeHeader, held)
    }

    /** The page written to takes v if it has room. */
    method PushNewest(v: T) returns (ok: bool)
      requires Valid()
      modifies this`memory, this`held
      ensures Valid() && memory[writeHeader].ring.cap == old(memory[writeHeader].ring.cap)
      ensures ok <==> old(HasRoom())
      ensures Contents() == if ok then old(Contents()) + [v] else old(Contents())
      ensures !ok ==> memory == old(memory) && held == old(held)
    {
      var page := memory[writeHeader];
      NewestRing(memory, writeHeader, chain, held, v);
      if Full(page.ring) {
        return false;
      }
      ghost var n := |chain| - 1;
      FlattenUpdateLast(held, v);
      ChainedUpdateNewest(memory, chain, held, Push(page.ring, v), held[n] + [v]);
      RootedUpdate(memory, writeHeader, chain, writeHeader, page.(ring := Push(page.ring, v)));
      memory := memory[writeHeader := page.(ring := Push(page.ring, v))];
      held := held[n := held[n] + [v]];
      ok := true;
    }

    /** Links a new page in front of a full one. */
    method Grow()
      requires Valid() && !HasRoom()
      modifies this
      ensures Valid()
      ensures Contents() == old(Contents()) && held == old(held) + [[]]
      ensures memory[writeHeader].ring.cap == PowerAtLeast(old(memory[writeHeader].ring.cap) + 1)
      ensures freed == old(freed)
    {
      var header := issued + 1;
      var page := Page(writeHeader, EmptyRing(PowerAtLeast(memory[writeHeader].ring.cap + 1)));
      FlattenLast(held, []);
      ChainedGrow(memory, writeHeader, chain, held, header);
      RootedGrow(memory, writeHeader, chain, header, page);
      AccountedGrow(issued, chain, freed);
      memory := memory[header := page];
      writeHeader, issued := header, header;
      chain, held := chain + [header], held + [[]];
    }

    /** How many pages have to be obtained before another value fits. */
    ghost function PagesNeeded(): nat
      requires writeHeader in memory
      reads this
    {
      if HasRoom() then 0 else if memory[writeHeader].ring.cap == 0 then 2 else 1
    }

    /** Appends v unless memory runs out; `budget` pages can be obtained. */
    method TryEmplace(v: T, budget: nat) returns (ok: bool)
      requires Valid()
      modifies this
      ensures Valid()
      ensures ok <==> old(PagesNeeded()) <= budget
      ensures Contents() == if ok then old(Contents()) + [v] else old(Contents())
      ensures freed == old(freed)
    {
      var left: nat := budget;
      ok := PushNewest(v);
      while !ok
        invariant Valid() && freed == old(freed)
        invariant ok ==> Contents() == old(Contents()) + [v] && old(PagesNeeded()) <= budget
        invariant !ok ==> Contents() == old(Contents()) && !HasRoom() && left <= budget
        invariant !ok ==> budget - left + PagesNeeded() == old(PagesNeeded())
        decreases if ok then 0 else PagesNeeded()
      {
        if left == 0 {
          return false;
        }
        left := left - 1;
        ghost var needed := PagesNeeded();
        Grow();
        assert PagesNeeded() == needed - 1;
        assert HasRoom() ==> old(PagesNeeded()) <= budget;
        ok := PushNewest(v);
      }
    }

    /** Gives back the oldest page, which is empty and not the only one. */
    method Unlink(oldest: Address, next: Address)
      requires Valid() && |chain| > 1 && oldest == chain[0] && next == chain[1] && held[0] == []
      modifies this
      ensures Valid() && Contents() == old(Contents()) && issued == old(issued)
      ensures chain == old(chain)[1..] && held == old(held)[1..] && freed == old(freed) + [oldest]
    {
      ChainedUnlink(memory, chain, held);
      RootedUpdate(memory, writeHeader, chain, next, memory[next].(previous := EMPTY));
      RootedFree(memory[next := memory[next].(previous := EMPTY)], writeHeader, chain, oldest, chain[1..]);
      AccountedFree(issued, chain, freed, oldest, chain[1..]);
      memory := memory[next := memory[next].(previous := EMPTY)];
      memory := memory - {oldest};
      chain, held := chain[1..], held[1..];
      freed := freed + [oldest];
    }

    method PopOldest(readHeader: Address) returns (r: Option<T>)
      requires Valid() && readHeader == (if chain == [] then EMPTY else chain[0])
      requires |chain| > 1 ==> held[0] != []
      modifies this`memory, this`held
      ensures Valid()
      ensures r.None? <==> old(Contents()) == []
      ensures r.None? ==> Contents() == []
      ensures r.Some? ==> old(Contents()) == [r.value] + Contents()
    {
      var page := memory[readHeader];
      if Empty(page.ring) {
        if chain != [] {
          OldestRing(memory, chain, held);
          assert held[1..] == [] && Flatten(held) == held[0] + Flatten(held[1..]);
        }
        return None;
      }
      OldestRing(memory, chain, held);
      r := Some(page.ring.cells[page.ring.readi].value);
      page := page.(ring := Pop(page.ring));
      ChainedUpdateOldest(memory, chain, held, page.ring, held[0][1..]);
      RootedUpdate(memory, writeHeader, chain, readHeader, page);
      memory := memory[readHeader := page];
      ghost var was := held;
      held := held[0 := held[0][1..]];
      assert held[1..] == was[1..];
    }

    /** Takes the oldest value.  On the way at most one page is given back, yet
        nothing is reported only if the whole queue is empty. */
    method TryPop() returns (r: Option<T>)
      requires Valid()
      modifies this
      ensures Valid() && issued == old(issued)
      ensures r.None? <==> old(Contents()) == []
      ensures r.None? ==> Contents() == []
      ensures r.Some? ==> old(Contents()) == [r.value] + Contents()
      ensures old(freed) <= freed && |freed| <= |old(freed)| + 1
    {
      var readHeader := writeHeader;
      assert chain != [] ==> PageOk(memory, chain, held, |chain| - 1);
      if memory[readHeader].previous != EMPTY {
        var nextHeader;
        readHeader, nextHeader := FindOldest();
        OldestRing(memory, chain, held);
        assert PageOk(memory, chain, held, 1);
        if memory[readHeader].ring.readi == memory[readHeader].ring.writei {
          Unlink(readHeader, nextHeader);
          readHeader := nextHeader;
        }
      }
      r := PopOldest(readHeader);
    }

    /** Follows the links from the newest page to the two oldest ones. */
    method FindOldest() returns (readHeader: Address, nextHeader: Address)
      requires Valid() && memory[writeHeader].previous != EMPTY
      ensures |chain| > 1 && readHeader == chain[0] && nextHeader == chain[1]
    {
      ghost var i := |chain| - 2;
      assert chain != [] ==> PageOk(memory, chain, held, |chain| - 1);
      nextHeader := writeHeader;
      readHeader := memory[writeHeader].previous;
      assert PageOk(memory, chain, held, i);
      while memory[readHeader].previous != EMPTY
        invariant 0 <= i < |chain| - 1 && readHeader == chain[i] && nextHeader == chain[i + 1]
        invariant PageOk(memory, chain, held, i)
        decreases i
      {
        nextHeader := readHeader;
        readHeader := memory[readHeader].previous;
        i := i - 1;
        assert PageOk(memory, chain, held, i);
      }
    }

    /** One turn of the destructor's loop: gives back the newest page still linked. */
    method FreeNewest(header: Address) returns (previous: Address)
      requires Rooted(memory, header, chain) && Chained(memory, chain, held) && Accounted(issued, chain, freed)
      requires header != EMPTY
      modifies this`memory, this`chain, this`held, this`freed
      ensures Rooted(memory, previous, chain) && Chained(memory, chain, held) && Accounted(issued, chain, freed)
      ensures |chain| < |old(chain)| && freed == old(freed) + [header]
    {
      ghost var n := |chain| - 1;
      FreeNewestOk(memory, header, chain, held, issued, freed);
      previous := memory[header].previous;
      memory := memory - {header};
      freed := freed + [header];
      chain, held := chain[..n], held[..n];
    }

    /** The destructor gives back what is still linked: then every page ever
        obtained has been given back exactly once. */
    method Destroy()
      requires Valid()
      modifies this
      ensures memory.Keys == {EMPTY}
      ensures forall a :: 1 <= a <= old(issued) <==> a in freed
      ensures forall i, j :: 0 <= i < j < |freed| ==> freed[i] != freed[j]
      ensures old(freed) <= freed
    {
      var header := writeHeader;
      while header != EMPTY
        invariant Rooted(memory, header, chain) && Chained(memory, chain, held) && Accounted(issued, chain, freed)
        invariant issued == old(issued) && old(freed) <= freed
        decreases |chain|
      {
        header := FreeNewest(header);
      }
      assert chain == [];
    }
  }
}
