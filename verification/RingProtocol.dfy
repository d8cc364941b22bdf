/** The ring of SimpleQueue shared by threads. */
module RingProtocol {

  import opened Residues
  import opened Cells

  /*
   The multi-producer, single-consumer ring of SimpleQueue as a step system: one
   step per atomic access (and one for constructing and one for taking a cell),
   under sequential consistency, for any number of producers.

   The queue itself only ever sees `readi`, `readendi`, `writei`, the cells and the
   threads' local indices.  Everything below the "history" line is auxiliary: no
   guard and no update of the fields above it reads it.
   */

  /** Where a producer stands inside try_emplace.  `w0` (how many check-outs had
      succeeded when `slot` was loaded) and `ticket` are auxiliary. */
  datatype Producer<T> =
    | Idle
    | Loaded(value: T, slot: nat, w0: nat)
    | Checked(value: T, slot: nat, next: nat, w0: nat)
    | Owner(value: T, slot: nat, next: nat, ticket: nat)
    | Built(value: T, slot: nat, next: nat, ticket: nat)

  /** Where the consumer stands inside try_pop. */
  datatype Consumer = Waiting | SawRead(slot: nat) | SawEnd(slot: nat) | Moved(slot: nat)

  datatype Entry<T> = Entry(producer: nat, value: T)

  datatype Ring<T> = Ring(
    cap: nat,
    readi: nat,
    readendi: nat,
    writei: nat,
    cells: seq<Cell<T>>,
    producers: seq<Producer<T>>,
    consumer: Consumer,
    fault: bool,            // a live cell was built over, or a raw one was read
    // history
    log: seq<Entry<T>>,     // successful check-outs, in order
    ended: nat,             // successful check-ins
    taken: nat,             // completed pops
    popped: seq<T>          // values handed to the consumer, in order
  )

  datatype Step<T> =
    | Load(p: nat, value: T)          // slot = writei_
    | LoadRead(p: nat)                // readi = readi_; full?
    | CasWrite(p: nat, weak: bool)    // compare_exchange_weak on writei_
    | Construct(p: nat)
    | CasReadEnd(p: nat, weak: bool)  // compare_exchange_weak on readendi_
    | PopLoadRead
    | PopLoadEnd
    | PopMove
    | PopStore

  /** The ring as constructed, shared by `n` producers. */
  function Init<T>(cap: nat, n: nat): (s: Ring<T>) {
    Ring(cap, 0, 0, 0, seq(cap, i => Raw), seq(n, i => Idle), Waiting, false, [], 0, 0, [])
  }

  predicate Enabled<T>(s: Ring<T>, step: Step<T>) {
    match step
    case Load(p, _) => p < |s.producers| && s.producers[p].Idle?
    case LoadRead(p) => p < |s.producers| && s.producers[p].Loaded?
    case CasWrite(p, _) => p < |s.producers| && s.producers[p].Checked?
    case Construct(p) => p < |s.producers| && s.producers[p].Owner? && s.producers[p].slot < |s.cells|
    case CasReadEnd(p, _) => p < |s.producers| && s.producers[p].Built?
    case PopLoadRead => s.consumer.Waiting?
    case PopLoadEnd => s.consumer.SawRead?
    case PopMove => s.consumer.SawEnd? && s.consumer.slot < |s.cells|
    case PopStore => s.consumer.Moved?
  }

  function SetProducer<T>(s: Ring<T>, p: nat, x: Producer<T>): (r: Ring<T>)
    requires p < |s.producers|
  {
    s.(producers := s.producers[p := x])
  }

  /** The compare-exchange of a check-out takes effect: the expected index is the
      one found and the weak form did not fail spuriously. */
  predicate CheckedOut<T>(s: Ring<T>, p: nat, weak: bool)
    requires p < |s.producers| && s.producers[p].Checked?
  {
    s.writei == s.producers[p].slot && !weak
  }

  predicate CheckedIn<T>(s: Ring<T>, p: nat, weak: bool)
    requires p < |s.producers| && s.producers[p].Built?
  {
    s.readendi == s.producers[p].slot && !weak
  }

  function Apply<T>(s: Ring<T>, step: Step<T>): (r: Ring<T>)
    requires Enabled(s, step)
  {
    match step
    case Load(p, v) => SetProducer(s, p, Loaded(v, s.writei, |s.log|))
    case LoadRead(p) =>
      var x := s.producers[p];
      var next := WrapReset(x.slot + 1, s.cap);
      SetProducer(s, p, if s.readi == next then Idle else Checked(x.value, x.slot, next, x.w0))
    case CasWrite(p, weak) =>
      var x := s.producers[p];
      if CheckedOut(s, p, weak) then
        SetProducer(s, p, Owner(x.value, x.slot, x.next, |s.log|))
        .(writei := x.next, log := s.log + [Entry(p, x.value)])
      else
        SetProducer(s, p, Loaded(x.value, s.writei, |s.log|))
    case Construct(p) =>
      var x := s.producers[p];
      SetProducer(s, p, Built(x.value, x.slot, x.next, x.ticket))
      .(cells := s.cells[x.slot := Live(x.value)], fault := s.fault || s.cells[x.slot].Live?)
    case CasReadEnd(p, weak) =>
      var x := s.producers[p];
      if CheckedIn(s, p, weak) then
        SetProducer(s, p, Idle).(readendi := x.next, ended := s.ended + 1)
      else
        s
    case PopLoadRead => s.(consumer := SawRead(s.readi))
    case PopLoadEnd =>
      s.(consumer := if s.consumer.slot == s.readendi then Waiting else SawEnd(s.consumer.slot))
    case PopMove =>
      var slot := s.consumer.slot;
      if s.cells[slot].Live? then
        s.(consumer := Moved(slot), cells := s.cells[slot := Raw], popped := s.popped + [s.cells[slot].value])
      else
        s.(consumer := Moved(slot), fault := true)
    case PopStore =>
      s.(consumer := Waiting, readi := WrapReset(s.consumer.slot + 1, s.cap), taken := s.taken + 1)
  }

  /** An attempt that does not span a lap: fewer than `cap` check-outs succeed
      between its load of `slot` and its successful compare-exchange. */
  predicate NoLap<T>(s: Ring<T>, step: Step<T>)
    requires Enabled(s, step)
  {
    step.CasWrite? && CheckedOut(s, step.p, step.weak) ==> |s.log| < s.producers[step.p].w0 + s.cap
  }

  /** A check-out takes effect although cap - 1 values are already outstanding. */
  predicate Overfills<T>(s: Ring<T>, step: Step<T>)
    requires Enabled(s, step)
  {
    step.CasWrite? && CheckedOut(s, step.p, step.weak) && |s.log| + 1 == s.taken + s.cap
  }

  /** `steps` is an interleaving the threads can take from `s`. */
  predicate Run<T>(s: Ring<T>, steps: seq<Step<T>>)
    decreases |steps|
  {
    steps == [] ||
    (Enabled(s, steps[0]) && Run(Apply(s, steps[0]), steps[1..]))
  }

  function Final<T>(s: Ring<T>, steps: seq<Step<T>>): (r: Ring<T>)
    requires Run(s, steps)
    decreases |steps|
  {
    if steps == [] then s else Final(Apply(s, steps[0]), steps[1..])
  }

  predicate LapFree<T>(s: Ring<T>, steps: seq<Step<T>>)
    requires Run(s, steps)
    decreases |steps|
  {
    steps == [] || (NoLap(s, steps[0]) && LapFree(Apply(s, steps[0]), steps[1..]))
  }

  predicate NeverOverfills<T>(s: Ring<T>, steps: seq<Step<T>>)
    requires Run(s, steps)
    decreases |steps|
  {
    steps == [] || (!Overfills(s, steps[0]) && NeverOverfills(Apply(s, steps[0]), steps[1..]))
  }

  /** A check-out takes effect although its guard, read again at that moment, would
      report the ring full. */
  predicate GuardFails<T>(s: Ring<T>, step: Step<T>)
    requires Enabled(s, step)
  {
    step.CasWrite? && CheckedOut(s, step.p, step.weak) && s.readi == s.producers[step.p].next
  }

  predicate GuardHolds<T>(s: Ring<T>, steps: seq<Step<T>>)
    requires Run(s, steps)
    decreases |steps|
  {
    steps == [] || (!GuardFails(s, steps[0]) && GuardHolds(Apply(s, steps[0]), steps[1..]))
  }

  // ---------------------------------------------------------------- invariant

  ghost predicate Indices<T>(s: Ring<T>) {
    && 0 < s.cap == |s.cells|
    && s.taken <= s.ended <= |s.log|
    && |s.log| - s.taken < s.cap
    && s.readi == Residue(s.taken, s.cap)
    && s.readendi == Residue(s.ended, s.cap)
    && s.writei == Residue(|s.log|, s.cap)
  }

  /** The producer holding check-out number i is the one the log names, and only
      check-outs that are not yet checked in are held. */
  ghost predicate Holds<T>(s: Ring<T>, p: nat, i: nat)
    requires p < |s.producers|
  {
    (s.producers[p].Owner? || s.producers[p].Built?) && s.producers[p].ticket == i
  }

  ghost predicate ProducerOk<T>(s: Ring<T>, p: nat)
    requires 0 < s.cap && p < |s.producers|
  {
    match s.producers[p]
    case Idle => true
    case Loaded(v, slot, w0) => w0 <= |s.log| && slot == Residue(w0, s.cap)
    case Checked(v, slot, next, w0) =>
      && w0 <= |s.log| && slot == Residue(w0, s.cap) && next == Residue(w0 + 1, s.cap)
      && (w0 == |s.log| ==> w0 + 1 - s.taken < s.cap)
    case Owner(v, slot, next, i) => Claim(s, p, v, slot, next, i)
    case Built(v, slot, next, i) => Claim(s, p, v, slot, next, i)
  }

  ghost predicate Claim<T>(s: Ring<T>, p: nat, v: T, slot: nat, next: nat, i: nat)
    requires 0 < s.cap
  {
    && s.ended <= i < |s.log| && s.log[i] == Entry(p, v)
    && slot == Residue(i, s.cap) && next == Residue(i + 1, s.cap)
  }

  ghost predicate Owned<T>(s: Ring<T>) {
    forall i :: s.ended <= i < |s.log| ==>
      s.log[i].producer < |s.producers| && Holds(s, s.log[i].producer, i)
  }

  /** What the cell of counter value i holds, for one lap starting at `taken`. */
  ghost predicate CellOk<T>(s: Ring<T>, i: nat)
    requires Indices(s) && Owned(s)
    requires s.taken <= i < s.taken + s.cap
  {
    var cell := s.cells[Residue(i, s.cap)];
    if i < s.ended then
      cell == if s.consumer.Moved? && i == s.taken then Raw else Live(s.log[i].value)
    else if i < |s.log| then
      cell == if s.producers[s.log[i].producer].Owner? then Raw else Live(s.log[i].value)
    else
      cell.Raw?
  }

  ghost predicate ConsumerOk<T>(s: Ring<T>)
    requires 0 < s.cap
  {
    match s.consumer
    case Waiting => true
    case SawRead(slot) => slot == Residue(s.taken, s.cap)
    case SawEnd(slot) => slot == Residue(s.taken, s.cap) && s.taken < s.ended
    case Moved(slot) => slot == Residue(s.taken, s.cap) && s.taken < s.ended
  }

  ghost predicate PoppedOk<T>(s: Ring<T>) {
    && |s.popped| == s.taken + (if s.consumer.Moved? then 1 else 0)
    && |s.popped| <= |s.log|
    && forall i :: 0 <= i < |s.popped| ==> s.popped[i] == s.log[i].value
  }

  ghost predicate Inv<T>(s: Ring<T>) {
    && Indices(s)
    && (forall p: nat :: p < |s.producers| ==> ProducerOk(s, p))
    && Owned(s)
    && (forall i: nat :: s.taken <= i < s.taken + s.cap ==> CellOk(s, i))
    && ConsumerOk(s)
    && PoppedOk(s)
    && !s.fault
  }

  // ---------------------------------------------------- every step keeps it

  lemma InitInv<T>(cap: nat, n: nat)
    requires 0 < cap
    ensures Inv(Init<T>(cap, n))
  {
  }

  /** Cells of different counter values in one lap are different cells. */
  lemma OneLap<T>(s: Ring<T>, i: nat)
    requires Indices(s) && s.taken <= i < s.taken + s.cap
    ensures forall j: nat :: s.taken <= j < s.taken + s.cap && j != i ==> Residue(j, s.cap) != Residue(i, s.cap)
  {
    forall j: nat | s.taken <= j < s.taken + s.cap && j != i
      ensures Residue(j, s.cap) != Residue(i, s.cap)
    {
      if i < j { ResidueInjective(i, j, s.cap); } else { ResidueInjective(j, i, s.cap); }
    }
  }

  /** A step that only moves producer p, and does not start or end a claim. */
  lemma KeepLocal<T>(s: Ring<T>, r: Ring<T>, p: nat)
    requires Inv(s) && p < |s.producers|
    requires |r.producers| == |s.producers|
    requires r == s.(producers := s.producers[p := r.producers[p]])
    requires !s.producers[p].Owner? && !s.producers[p].Built? && !r.producers[p].Owner? && !r.producers[p].Built?
    requires ProducerOk(r, p)
    ensures Inv(r)
  {
    KeepOwned(s, r, p);
    KeepProducers(s, r, p);
    forall i: nat | r.taken <= i < r.taken + r.cap
      ensures CellOk(r, i)
    {
      assert CellOk(s, i);
      if s.ended <= i < |s.log| { assert Holds(s, s.log[i].producer, i); }
    }
  }

  /** Claims that outlive a step are still held after it. */
  lemma KeepOwned<T>(s: Ring<T>, r: Ring<T>, p: nat)
    requires Owned(s) && s.log <= r.log && s.ended <= r.ended
    requires |r.producers| == |s.producers|
    requires forall q: nat :: q < |s.producers| && q != p ==> r.producers[q] == s.producers[q]
    requires forall i :: r.ended <= i < |s.log| && s.log[i].producer == p ==> p < |r.producers| && Holds(r, p, i)
    ensures forall i :: r.ended <= i < |s.log| ==>
      r.log[i].producer < |r.producers| && Holds(r, r.log[i].producer, i)
  {
    forall i | r.ended <= i < |s.log|
      ensures r.log[i].producer < |r.producers| && Holds(r, r.log[i].producer, i)
    {
      assert Holds(s, s.log[i].producer, i);
    }
  }

  /** Producers that do not move stay in order. */
  lemma KeepProducers<T>(s: Ring<T>, r: Ring<T>, p: nat)
    requires Inv(s) && Indices(r)
    requires r.cap == s.cap && s.log <= r.log && s.taken <= r.taken
    requires |r.producers| == |s.producers|
    requires forall q: nat :: q < |s.producers| && q != p ==> r.producers[q] == s.producers[q]
    requires r.ended == s.ended ||
             (r.ended == s.ended + 1 && s.ended < |s.log| && s.log[s.ended].producer == p)
    ensures forall q: nat :: q < |s.producers| && q != p ==> ProducerOk(r, q)
  {
    forall q: nat | q < |r.producers| && q != p
      ensures ProducerOk(r, q)
    {
      assert ProducerOk(s, q);
    }
  }

  lemma KeepLoad<T>(s: Ring<T>, p: nat, v: T)
    requires Inv(s) && Enabled(s, Load(p, v))
    ensures Inv(Apply(s, Load(p, v)))
  {
    KeepLocal(s, Apply(s, Load(p, v)), p);
  }

  lemma KeepLoadRead<T>(s: Ring<T>, p: nat)
    requires Inv(s) && Enabled(s, LoadRead(p))
    ensures Inv(Apply(s, LoadRead(p)))
  {
    var x := s.producers[p];
    assert ProducerOk(s, p);
    ResidueNext(x.w0, s.cap);
    ResidueLap(s.taken, s.cap);
    KeepLocal(s, Apply(s, LoadRead(p)), p);
  }

  /** The cell of a fresh check-out is the raw one just past the log. */
  lemma CheckOutCells<T>(s: Ring<T>, r: Ring<T>, p: nat, x: Producer<T>)
    requires Inv(s) && p < |s.producers| && Indices(r) && Owned(r) && x.Owner?
    requires !s.producers[p].Owner? && !s.producers[p].Built?
    requires |s.log| + 1 < s.taken + s.cap
    requires r.producers == s.producers[p := x] && r.consumer == s.consumer
    requires r.cap == s.cap && r.cells == s.cells && r.taken == s.taken && r.ended == s.ended
    requires r.log == s.log + [Entry(p, x.value)]
    ensures forall i: nat :: r.taken <= i < r.taken + r.cap ==> CellOk(r, i)
  {
    forall i: nat | r.taken <= i < r.taken + r.cap
      ensures CellOk(r, i)
    {
      assert CellOk(s, i);
      if s.ended <= i < |s.log| { assert Holds(s, s.log[i].producer, i); }
    }
  }

  /** A check-out that takes effect gives out the index of the next counter value. */
  lemma CheckOutSlot<T>(s: Ring<T>, p: nat, weak: bool)
    requires Inv(s) && Enabled(s, CasWrite(p, weak)) && CheckedOut(s, p, weak)
    ensures s.producers[p].slot == Residue(|s.log|, s.cap) && s.producers[p].next == Residue(|s.log| + 1, s.cap)
  {
    assert ProducerOk(s, p);
    ResidueNext(s.producers[p].w0, s.cap);
    ResidueNext(|s.log|, s.cap);
  }

  lemma CheckOutRest<T>(s: Ring<T>, r: Ring<T>, p: nat, y: Producer<T>)
    requires Inv(s) && p < |s.producers| && s.producers[p].Checked? && |s.log| + 1 < s.taken + s.cap
    requires y == Owner(s.producers[p].value, Residue(|s.log|, s.cap), Residue(|s.log| + 1, s.cap), |s.log|)
    requires r == s.(producers := s.producers[p := y], writei := y.next, log := s.log + [Entry(p, y.value)])
    ensures Indices(r) && (forall q: nat :: q < |r.producers| ==> ProducerOk(r, q)) && Owned(r)
  {
    KeepProducers(s, r, p);
    assert ProducerOk(r, p);
    KeepOwned(s, r, p);
  }

  lemma KeepCheckOut<T>(s: Ring<T>, p: nat, weak: bool)
    requires Inv(s) && Enabled(s, CasWrite(p, weak)) && CheckedOut(s, p, weak)
    requires |s.log| + 1 < s.taken + s.cap
    ensures Inv(Apply(s, CasWrite(p, weak)))
  {
    var x := s.producers[p];
    var r, y := Apply(s, CasWrite(p, weak)), Owner(x.value, x.slot, x.next, |s.log|);
    CheckOutSlot(s, p, weak);
    CheckOutRest(s, r, p, y);
    CheckOutCells(s, r, p, y);
  }

  lemma KeepCasWrite<T>(s: Ring<T>, p: nat, weak: bool)
    requires Inv(s) && Enabled(s, CasWrite(p, weak)) && !Overfills(s, CasWrite(p, weak))
    ensures Inv(Apply(s, CasWrite(p, weak)))
  {
    if CheckedOut(s, p, weak) {
      KeepCheckOut(s, p, weak);
    } else {
      assert ProducerOk(s, p);
      KeepLocal(s, Apply(s, CasWrite(p, weak)), p);
    }
  }

  lemma KeepConstruct<T>(s: Ring<T>, p: nat)
    requires Inv(s) && Enabled(s, Construct(p))
    ensures Inv(Apply(s, Construct(p)))
    ensures s.cells[s.producers[p].slot].Raw?
  {
    var r := Apply(s, Construct(p));
    var x := s.producers[p];
    assert ProducerOk(s, p);
    assert CellOk(s, x.ticket);
    KeepOwned(s, r, p);
    KeepProducers(s, r, p);
    OneLap(s, x.ticket);
    forall i: nat | r.taken <= i < r.taken + r.cap
      ensures CellOk(r, i)
    {
      assert CellOk(s, i);
      if s.ended <= i < |s.log| { assert Holds(s, s.log[i].producer, i); }
    }
  }

  lemma KeepCasReadEnd<T>(s: Ring<T>, p: nat, weak: bool)
    requires Inv(s) && Enabled(s, CasReadEnd(p, weak))
    ensures Inv(Apply(s, CasReadEnd(p, weak)))
    ensures CheckedIn(s, p, weak) ==> s.producers[p].ticket == s.ended
  {
    var r := Apply(s, CasReadEnd(p, weak));
    assert ProducerOk(s, p);
    if CheckedIn(s, p, weak) {
      ResidueInjective(s.ended, s.producers[p].ticket, s.cap);
      forall i | r.ended <= i < |s.log| ensures s.log[i].producer != p {
        assert Holds(s, s.log[i].producer, i);
      }
      KeepOwned(s, r, p);
      KeepProducers(s, r, p);
      forall i: nat | r.taken <= i < r.taken + r.cap
        ensures CellOk(r, i)
      {
        assert CellOk(s, i);
      }
    }
  }

  lemma KeepPopLoad<T>(s: Ring<T>, step: Step<T>)
    requires Inv(s) && Enabled(s, step) && (step.PopLoadRead? || step.PopLoadEnd?)
    ensures Inv(Apply(s, step))
  {
    var r := Apply(s, step);
    var p := |s.producers|;
    KeepOwned(s, r, p);
    KeepProducers(s, r, p);
    forall i: nat | r.taken <= i < r.taken + r.cap ensures CellOk(r, i) { assert CellOk(s, i); }
  }

  lemma KeepPopMove<T>(s: Ring<T>)
    requires Inv(s) && Enabled(s, PopMove)
    ensures Inv(Apply(s, PopMove))
    ensures s.cells[s.consumer.slot] == Live(s.log[s.taken].value)
  {
    var r := Apply(s, PopMove);
    var p := |s.producers|;
    assert CellOk(s, s.taken);
    OneLap(s, s.taken);
    KeepOwned(s, r, p);
    KeepProducers(s, r, p);
    forall i: nat | r.taken <= i < r.taken + r.cap ensures CellOk(r, i) { assert CellOk(s, i); }
  }

  lemma KeepPopStore<T>(s: Ring<T>)
    requires Inv(s) && Enabled(s, PopStore)
    ensures Inv(Apply(s, PopStore))
  {
    var r := Apply(s, PopStore);
    var p := |s.producers|;
    ResidueNext(s.taken, s.cap);
    KeepOwned(s, r, p);
    KeepProducers(s, r, p);
    forall i: nat | r.taken <= i < r.taken + r.cap
      ensures CellOk(r, i)
    {
      if i < s.taken + s.cap {
        assert CellOk(s, i);
      } else {
        ResidueLap(s.taken, s.cap);
        assert CellOk(s, s.taken);
      }
    }
  }

  lemma KeepStep<T>(s: Ring<T>, step: Step<T>)
    requires Inv(s) && Enabled(s, step) && !Overfills(s, step)
    ensures Inv(Apply(s, step))
  {
    match step
    case Load(p, v) => KeepLoad(s, p, v);
    case LoadRead(p) => KeepLoadRead(s, p);
    case CasWrite(p, weak) => KeepCasWrite(s, p, weak);
    case Construct(p) => KeepConstruct(s, p);
    case CasReadEnd(p, weak) => KeepCasReadEnd(s, p, weak);
    case PopLoadRead => KeepPopLoad(s, step);
    case PopLoadEnd => KeepPopLoad(s, step);
    case PopMove => KeepPopMove(s);
    case PopStore => KeepPopStore(s);
  }

  /** A check-out that found room and did not span a lap still has room. */
  lemma NoLapHasRoom<T>(s: Ring<T>, step: Step<T>)
    requires Inv(s) && Enabled(s, step) && NoLap(s, step)
    ensures !Overfills(s, step)
  {
    if step.CasWrite? && CheckedOut(s, step.p, step.weak) {
      assert ProducerOk(s, step.p);
      ResidueInjective(s.producers[step.p].w0, |s.log|, s.cap);
    }
  }

  lemma {:induction false} KeepRun<T>(s: Ring<T>, steps: seq<Step<T>>)
    requires Inv(s) && Run(s, steps) && NeverOverfills(s, steps)
    ensures Inv(Final(s, steps))
    decreases |steps|
  {
    if steps != [] {
      KeepStep(s, steps[0]);
      KeepRun(Apply(s, steps[0]), steps[1..]);
    }
  }

  // ------------------------------------------------------------ main results

  /** What producer p does next; v is what it pushes if it is idle. */
  function NextOf<T>(x: Producer<T>, p: nat, v: T, weak: bool): (step: Step<T>) {
    match x
    case Idle => Load(p, v)
    case Loaded(_, _, _) => LoadRead(p)
    case Checked(_, _, _, _) => CasWrite(p, weak)
    case Owner(_, _, _, _) => Construct(p)
    case Built(_, _, _, _) => CasReadEnd(p, weak)
  }

  function NextPop<T>(c: Consumer): (step: Step<T>) {
    match c
    case Waiting => PopLoadRead
    case SawRead(_) => PopLoadEnd
    case SawEnd(_) => PopMove
    case Moved(_) => PopStore
  }

  /** No thread is ever stuck, and none constructs or takes out of bounds. */
  lemma NeverStuck<T>(s: Ring<T>, p: nat, v: T, weak: bool)
    requires Inv(s) && p < |s.producers|
    ensures Enabled(s, NextOf(s.producers[p], p, v, weak)) && Enabled(s, NextPop(s.consumer))
  {
    assert ProducerOk(s, p);
  }

  lemma {:induction false} LapFreeNeverOverfills<T>(s: Ring<T>, steps: seq<Step<T>>)
    requires Inv(s) && Run(s, steps) && LapFree(s, steps)
    ensures NeverOverfills(s, steps)
    decreases |steps|
  {
    if steps != [] {
      NoLapHasRoom(s, steps[0]);
      KeepStep(s, steps[0]);
      LapFreeNeverOverfills(Apply(s, steps[0]), steps[1..]);
    }
  }

  /** A check-out overfills exactly if its guard would fail by now.  Its attempt spans
      a lap then, and it leaves the ring looking empty to every producer. */
  lemma OverfillsExactly<T>(s: Ring<T>, step: Step<T>)
    requires Inv(s) && Enabled(s, step)
    ensures Overfills(s, step) <==> GuardFails(s, step)
    ensures Overfills(s, step) ==>
      && s.producers[step.p].w0 + s.cap <= |s.log|
      && Apply(s, step).writei == Apply(s, step).readi
  {
    if step.CasWrite? && CheckedOut(s, step.p, step.weak) {
      CheckOutSlot(s, step.p, step.weak);
      if |s.log| + 1 == s.taken + s.cap {
        ResidueLap(s.taken, s.cap);
        OverfillsLater(s, step);
      } else {
        ResidueInjective(s.taken, |s.log| + 1, s.cap);
      }
    }
  }

  lemma OverfillsLater<T>(s: Ring<T>, step: Step<T>)
    requires Inv(s) && Enabled(s, step) && Overfills(s, step)
    ensures s.producers[step.p].w0 + s.cap <= |s.log|
  {
    var w0 := s.producers[step.p].w0;
    assert ProducerOk(s, step.p);
    if |s.log| < w0 + s.cap { ResidueInjective(w0, |s.log|, s.cap); }
  }

  /** Everything the ring promises of a state. */
  ghost predicate Safe<T>(s: Ring<T>) {
    // the three counters are in order and within the capacity
    && s.taken <= s.ended <= |s.log| < s.taken + s.cap
    // no live cell was constructed over, no raw cell was read
    && !s.fault
    // every check-out that is not checked in belongs to exactly one producer
    && (forall i :: s.ended <= i < |s.log| ==>
        s.log[i].producer < |s.producers| && Holds(s, s.log[i].producer, i))
    && (forall p: nat, q: nat, i: nat :: p < |s.producers| && q < |s.producers| && Holds(s, p, i) && Holds(s, q, i) ==>
        p == q && s.ended <= i < |s.log|)
    // a check-in that would succeed is that producer's turn
    && (forall p: nat :: p < |s.producers| && s.producers[p].Built? && s.producers[p].slot == s.readendi ==>
        s.producers[p].ticket == s.ended)
    // what was popped is a prefix of what was checked out
    && s.popped <= Values(s.log)
  }

  function Values<T>(log: seq<Entry<T>>): (vs: seq<T>)
    ensures |vs| == |log|
    ensures forall i :: 0 <= i < |log| ==> vs[i] == log[i].value
  {
    seq(|log|, i requires 0 <= i < |log| => log[i].value)
  }

  lemma InvIsSafe<T>(s: Ring<T>)
    requires Inv(s)
    ensures Safe(s)
  {
    forall p: nat, q: nat, i: nat | p < |s.producers| && q < |s.producers| && Holds(s, p, i) && Holds(s, q, i)
      ensures p == q && s.ended <= i < |s.log|
    {
      assert ProducerOk(s, p) && ProducerOk(s, q);
    }
    forall p: nat | p < |s.producers| && s.producers[p].Built? && s.producers[p].slot == s.readendi
      ensures s.producers[p].ticket == s.ended
    {
      assert ProducerOk(s, p);
      ResidueInjective(s.ended, s.producers[p].ticket, s.cap);
    }
  }

  /** Everything promised holds at every moment of the run. */
  ghost predicate AlwaysSafe<T>(s: Ring<T>, steps: seq<Step<T>>)
    requires Run(s, steps)
    decreases |steps|
  {
    Safe(s) && (steps == [] || AlwaysSafe(Apply(s, steps[0]), steps[1..]))
  }

  lemma {:induction false} SafeExactlyFrom<T>(s: Ring<T>, steps: seq<Step<T>>)
    requires Inv(s) && Run(s, steps)
    ensures AlwaysSafe(s, steps) <==> GuardHolds(s, steps)
    decreases |steps|
  {
    InvIsSafe(s);
    if steps != [] {
      OverfillsExactly(s, steps[0]);
      if !Overfills(s, steps[0]) {
        KeepStep(s, steps[0]);
        SafeExactlyFrom(Apply(s, steps[0]), steps[1..]);
      }
    }
  }

  /** Exactly the runs in which the guard of every check-out still holds when it takes
      effect are safe throughout. */
  lemma SafeExactly<T>(cap: nat, n: nat, steps: seq<Step<T>>)
    requires 0 < cap && Run(Init<T>(cap, n), steps)
    ensures AlwaysSafe(Init<T>(cap, n), steps) <==> GuardHolds(Init<T>(cap, n), steps)
  {
    InitInv<T>(cap, n);
    SafeExactlyFrom(Init<T>(cap, n), steps);
  }

  /** Every lap-free interleaving of any number of producers and one consumer is safe. */
  lemma RunsAreSafe<T>(cap: nat, n: nat, steps: seq<Step<T>>)
    requires 0 < cap
    requires Run(Init<T>(cap, n), steps) && LapFree(Init<T>(cap, n), steps)
    ensures Safe(Final(Init<T>(cap, n), steps))
  {
    InitInv<T>(cap, n);
    LapFreeNeverOverfills(Init<T>(cap, n), steps);
    KeepRun(Init<T>(cap, n), steps);
    InvIsSafe(Final(Init<T>(cap, n), steps));
  }

  /** The values live in the ring, oldest first, when nobody is inside a call. */
  ghost function Contents<T>(s: Ring<T>): (vs: seq<Cell<T>>)
    requires Indices(s)
  {
    seq(|s.log| - s.taken, k requires 0 <= k < |s.log| - s.taken => s.cells[Residue(s.taken + k, s.cap)])
  }

  lemma Claimed<T>(s: Ring<T>, i: nat)
    requires Owned(s) && s.ended <= i < |s.log|
    ensures exists p: nat :: p < |s.producers| && !s.producers[p].Idle?
  {
    assert Holds(s, s.log[i].producer, i);
  }

  /** Between calls nothing is lost or duplicated: what was checked out is what was
      popped followed by what the ring holds. */
  lemma Conservation<T>(s: Ring<T>)
    requires Inv(s)
    requires s.consumer.Waiting? && forall p: nat :: p < |s.producers| ==> s.producers[p].Idle?
    ensures Lives(Values(s.log)) == Lives(s.popped) + Contents(s)
  {
    if s.ended < |s.log| {
      Claimed(s, s.ended);
      assert false;
    }
    forall i | s.taken <= i < |s.log|
      ensures Contents(s)[i - s.taken] == Live(s.log[i].value)
    {
      assert CellOk(s, i);
    }
  }

  /** try_emplace reports full only if the ring held cap - 1 values at that
      moment, or the index it had loaded was already out of date. */
  lemma FullIsHonest<T>(s: Ring<T>, p: nat)
    requires Inv(s) && Enabled(s, LoadRead(p))
    requires Apply(s, LoadRead(p)).producers[p].Idle?
    ensures |s.log| + 1 == s.taken + s.cap || s.producers[p].w0 < |s.log|
  {
    assert ProducerOk(s, p);
    ResidueNext(s.producers[p].w0, s.cap);
    if s.producers[p].w0 == |s.log| {
      if |s.log| + 1 < s.taken + s.cap {
        ResidueInjective(s.taken, |s.log| + 1, s.cap);
      }
    }
  }

  /** try_pop reports empty exactly if nothing was checked in and not yet taken. */
  lemma EmptyIsHonest<T>(s: Ring<T>)
    requires Inv(s) && Enabled(s, PopLoadEnd)
    ensures Apply(s, PopLoadEnd).consumer.Waiting? <==> s.taken == s.ended
  {
    ResidueInjective(s.taken, s.ended, s.cap);
  }

  /** What producer p checked out, as the log has it. */
  function By<T>(log: seq<Entry<T>>, p: nat): (vs: seq<T>) {
    if log == [] then []
    else By(log[..|log| - 1], p) + (if log[|log| - 1].producer == p then [log[|log| - 1].value] else [])
  }

  /** What one step checks out for producer p. */
  function PushedBy<T>(s: Ring<T>, step: Step<T>, p: nat): (vs: seq<T>)
    requires Enabled(s, step)
  {
    if step.CasWrite? && step.p == p && CheckedOut(s, p, step.weak) then [s.producers[p].value] else []
  }

  /** What producer p checked out, as its own steps have it. */
  function Pushed<T>(s: Ring<T>, steps: seq<Step<T>>, p: nat): (vs: seq<T>)
    requires Run(s, steps)
    decreases |steps|
  {
    if steps == [] then [] else PushedBy(s, steps[0], p) + Pushed(Apply(s, steps[0]), steps[1..], p)
  }

  lemma StepKeepsOrder<T>(s: Ring<T>, step: Step<T>, p: nat)
    requires Enabled(s, step)
    ensures By(Apply(s, step).log, p) == By(s.log, p) + PushedBy(s, step, p)
  {
    var log := Apply(s, step).log;
    if step.CasWrite? && CheckedOut(s, step.p, step.weak) {
      assert log[..|log| - 1] == s.log;
    } else {
      assert log == s.log;
    }
  }

  lemma JoinsOn<T>(all: seq<T>, before: seq<T>, now: seq<T>, rest: seq<T>)
    requires all == (before + now) + rest
    ensures all == before + (now + rest)
  {
  }

  lemma {:induction false} LogKeepsOrder<T>(s: Ring<T>, steps: seq<Step<T>>, p: nat)
    requires Run(s, steps)
    ensures By(Final(s, steps).log, p) == By(s.log, p) + Pushed(s, steps, p)
    decreases |steps|
  {
    if steps != [] {
      StepKeepsOrder(s, steps[0], p);
      LogKeepsOrder(Apply(s, steps[0]), steps[1..], p);
      JoinsOn(By(Final(s, steps).log, p), By(s.log, p), PushedBy(s, steps[0], p),
              Pushed(Apply(s, steps[0]), steps[1..], p));
    }
  }

  lemma {:induction false} ByPrefix<T>(log: seq<Entry<T>>, k: nat, p: nat)
    requires k <= |log|
    ensures By(log[..k], p) <= By(log, p)
    decreases |log|
  {
    if k == |log| {
      assert log[..k] == log;
    } else {
      ByPrefix(log[..|log| - 1], k, p);
      assert log[..|log| - 1][..k] == log[..k];
    }
  }

  /** Each producer's values are popped in the order it pushed them. */
  lemma ProducerOrder<T>(cap: nat, n: nat, steps: seq<Step<T>>, p: nat)
    requires 0 < cap
    requires Run(Init<T>(cap, n), steps) && LapFree(Init<T>(cap, n), steps)
    ensures var s := Final(Init<T>(cap, n), steps);
      && s.popped <= Values(s.log)
      && By(s.log[..|s.popped|], p) <= Pushed(Init<T>(cap, n), steps, p)
  {
    var s := Final(Init<T>(cap, n), steps);
    RunsAreSafe(cap, n, steps);
    LogKeepsOrder(Init<T>(cap, n), steps, p);
    ByPrefix(s.log, |s.popped|, p);
  }

  // ------------------------------------------------------- how a call ends

  /** Producer p finds the ring full: the index behind its slot is the one read. */
  predicate FindsFull<T>(s: Ring<T>, step: Step<T>, p: nat)
    requires Enabled(s, step)
  {
    step == LoadRead(p) && s.readi == WrapReset(s.producers[p].slot + 1, s.cap)
  }

  /** A step ends a call exactly if it is the check-in whose turn it is, or finds the
      ring full. */
  lemma CallEnds<T>(s: Ring<T>, step: Step<T>, p: nat)
    requires Inv(s) && Enabled(s, step) && p < |s.producers| && !s.producers[p].Idle?
    ensures Apply(s, step).producers[p].Idle? <==>
      || (step == CasReadEnd(p, false) && s.producers[p].ticket == s.ended)
      || FindsFull(s, step, p)
  {
    assert ProducerOk(s, p);
    if step.CasReadEnd? && step.p == p && !step.weak {
      ResidueInjective(s.ended, s.producers[p].ticket, s.cap);
    }
  }

  /** How a call came out: its value was checked out, or the ring was found full. */
  datatype Outcome<T> = Accepted(value: T) | Refused(value: T)

  /** The call of producer p that this step decides, if any. */
  function Decided<T>(s: Ring<T>, step: Step<T>, p: nat): (os: seq<Outcome<T>>)
    requires Enabled(s, step)
  {
    if FindsFull(s, step, p) then [Refused(s.producers[p].value)]
    else if step.CasWrite? && step.p == p && CheckedOut(s, p, step.weak) then [Accepted(s.producers[p].value)]
    else []
  }

  function Outcomes<T>(s: Ring<T>, steps: seq<Step<T>>, p: nat): (os: seq<Outcome<T>>)
    requires Run(s, steps)
    decreases |steps|
  {
    if steps == [] then [] else Decided(s, steps[0], p) + Outcomes(Apply(s, steps[0]), steps[1..], p)
  }

  /** The value of a call that is not decided yet. */
  function Undecided<T>(x: Producer<T>): (vs: seq<T>) {
    if x.Loaded? || x.Checked? then [x.value] else []
  }

  function OutcomeValues<T>(os: seq<Outcome<T>>): (vs: seq<T>)
    ensures |vs| == |os|
  {
    if os == [] then [] else [os[0].value] + OutcomeValues(os[1..])
  }

  function AcceptedValues<T>(os: seq<Outcome<T>>): (vs: seq<T>)
    ensures |vs| <= |os|
  {
    if os == [] then [] else (if os[0].Accepted? then [os[0].value] else []) + AcceptedValues(os[1..])
  }

  lemma OutcomesJoin<T>(now: seq<Outcome<T>>, rest: seq<Outcome<T>>)
    requires |now| <= 1
    ensures OutcomeValues(now + rest) == OutcomeValues(now) + OutcomeValues(rest)
    ensures AcceptedValues(now + rest) == AcceptedValues(now) + AcceptedValues(rest)
  {
    if now == [] {
      assert now + rest == rest;
    } else {
      assert (now + rest)[1..] == rest && now[1..] == [];
    }
  }

  /** The value a step calls with, if it starts a call of producer p. */
  function OfferedBy<T>(step: Step<T>, p: nat): (vs: seq<T>) {
    if step.Load? && step.p == p then [step.value] else []
  }

  /** The values producer p calls try_emplace with, in order. */
  function Offered<T>(steps: seq<Step<T>>, p: nat): (vs: seq<T>) {
    if steps == [] then [] else OfferedBy(steps[0], p) + Offered(steps[1..], p)
  }

  predicate StepOf<T>(step: Step<T>, p: nat) {
    (step.Load? || step.LoadRead? || step.CasWrite? || step.Construct? || step.CasReadEnd?) && step.p == p
  }

  lemma OthersStay<T>(s: Ring<T>, step: Step<T>, p: nat)
    requires Enabled(s, step) && p < |s.producers|
    ensures |Apply(s, step).producers| == |s.producers|
    ensures !StepOf(step, p) ==> Apply(s, step).producers[p] == s.producers[p]
  {
  }

  lemma StepDecides<T>(s: Ring<T>, step: Step<T>, p: nat)
    requires Enabled(s, step) && p < |s.producers|
    ensures |Apply(s, step).producers| == |s.producers|
    ensures Undecided(s.producers[p]) + OfferedBy(step, p)
         == OutcomeValues(Decided(s, step, p)) + Undecided(Apply(s, step).producers[p])
    ensures PushedBy(s, step, p) == AcceptedValues(Decided(s, step, p))
  {
    OthersStay(s, step, p);
    if !StepOf(step, p) {
      assert OfferedBy(step, p) == [] && Decided(s, step, p) == [];
    } else if !step.Load? {
      assert OfferedBy(step, p) == [];
    }
  }

  lemma Across<T>(a: seq<T>, b: seq<T>, c: seq<T>, d: seq<T>, e: seq<T>, f: seq<T>, g: seq<T>)
    requires a + b == c + d && d + e == f + g
    ensures a + (b + e) == (c + f) + g
  {
    calc {
      a + (b + e);
      (a + b) + e;
      (c + d) + e;
      c + (d + e);
      c + (f + g);
      (c + f) + g;
    }
  }

  /** No call gets lost: in every run, the values a producer calls with are, in order,
      those of its decided calls and of the one still undecided; and what it pushed is
      what was accepted. */
  lemma {:induction false} CallsAreDecided<T>(s: Ring<T>, steps: seq<Step<T>>, p: nat)
    requires Run(s, steps) && p < |s.producers|
    ensures p < |Final(s, steps).producers|
    ensures Undecided(s.producers[p]) + Offered(steps, p)
         == OutcomeValues(Outcomes(s, steps, p)) + Undecided(Final(s, steps).producers[p])
    ensures Pushed(s, steps, p) == AcceptedValues(Outcomes(s, steps, p))
    decreases |steps|
  {
    if steps != [] {
      var r := Apply(s, steps[0]);
      var now, rest := Decided(s, steps[0], p), Outcomes(r, steps[1..], p);
      StepDecides(s, steps[0], p);
      CallsAreDecided(r, steps[1..], p);
      OutcomesJoin(now, rest);
      Across(Undecided(s.producers[p]), OfferedBy(steps[0], p), OutcomeValues(now), Undecided(r.producers[p]),
             Offered(steps[1..], p), OutcomeValues(rest), Undecided(Final(s, steps).producers[p]));
    }
  }

  /** Some step of the run finds the ring full for producer p. */
  predicate ReportsFull<T>(s: Ring<T>, steps: seq<Step<T>>, p: nat)
    requires Run(s, steps)
    decreases |steps|
  {
    steps != [] && (FindsFull(s, steps[0], p) || ReportsFull(Apply(s, steps[0]), steps[1..], p))
  }

  /** The ring is reported full exactly if a decided call was not accepted. */
  lemma {:induction false} ReportsAreRefusals<T>(s: Ring<T>, steps: seq<Step<T>>, p: nat)
    requires Run(s, steps)
    ensures ReportsFull(s, steps, p) <==> |AcceptedValues(Outcomes(s, steps, p))| < |Outcomes(s, steps, p)|
    decreases |steps|
  {
    if steps != [] {
      ReportsAreRefusals(Apply(s, steps[0]), steps[1..], p);
      OutcomesJoin(Decided(s, steps[0], p), Outcomes(Apply(s, steps[0]), steps[1..], p));
    }
  }

  /** One whole call with value v, among whatever the other threads do: it pushes v
      exactly once, or nothing because it found the ring full. */
  lemma OneCall<T>(s: Ring<T>, steps: seq<Step<T>>, p: nat, v: T)
    requires Run(s, steps) && p < |s.producers|
    requires s.producers[p].Idle? && Offered(steps, p) == [v]
    requires p < |Final(s, steps).producers| && Final(s, steps).producers[p].Idle?
    ensures Pushed(s, steps, p) == if ReportsFull(s, steps, p) then [] else [v]
    ensures By(Final(s, steps).log, p) == By(s.log, p) + if ReportsFull(s, steps, p) then [] else [v]
  {
    var os := Outcomes(s, steps, p);
    CallsAreDecided(s, steps, p);
    ReportsAreRefusals(s, steps, p);
    LogKeepsOrder(s, steps, p);
    assert [] + [v] == OutcomeValues(os) + [];
    assert [] + [v] == [v] && OutcomeValues(os) + [] == OutcomeValues(os);
    assert os == [os[0]] && os[1..] == [];
  }

  /** Left alone, a producer whose attempt failed reads the index again, so its next
      attempt is refused exactly by a full ring and takes effect otherwise. */
  lemma AloneDecides<T>(s: Ring<T>, p: nat, weak: bool)
    requires Inv(s) && Enabled(s, CasWrite(p, weak)) && !CheckedOut(s, p, weak)
    ensures var r := Apply(s, CasWrite(p, weak));
      && Enabled(r, LoadRead(p))
      && (FindsFull(r, LoadRead(p), p) <==> |s.log| + 1 == s.taken + s.cap)
      && var t := Apply(r, LoadRead(p));
         !t.producers[p].Idle? ==> Enabled(t, CasWrite(p, false)) && CheckedOut(t, p, false)
  {
    ResidueNext(|s.log|, s.cap);
    if |s.log| + 1 < s.taken + s.cap {
      ResidueInjective(s.taken, |s.log| + 1, s.cap);
    } else {
      ResidueLap(s.taken, s.cap);
    }
  }

  // -------------------------------------------- why the hypothesis is needed

  lemma {:induction false} RunAppend<T>(s: Ring<T>, a: seq<Step<T>>, b: seq<Step<T>>)
    requires Run(s, a) && Run(Final(s, a), b)
    ensures Run(s, a + b) && Final(s, a + b) == Final(Final(s, a), b)
    ensures LapFree(s, a + b) ==> LapFree(Final(s, a), b)
    ensures GuardHolds(s, a + b) ==> GuardHolds(Final(s, a), b)
    decreases |a|
  {
    if a == [] {
      assert a + b == b;
    } else {
      assert (a + b)[1..] == a[1..] + b;
      RunAppend(Apply(s, a[0]), a[1..], b);
    }
  }

  // An attempt of producer 0 that sleeps for a whole lap of a two-cell ring:
  // it finds room, then producer 1 pushes, the consumer pops and producer 1
  // pushes again, and only then does it wake up.
  const SLEEP: seq<Step<int>> := [Load(0, 10), LoadRead(0)]
  const PUSH1: seq<Step<int>> := [Load(1, 20), LoadRead(1), CasWrite(1, false), Construct(1), CasReadEnd(1, false)]
  const POP: seq<Step<int>> := [PopLoadRead, PopLoadEnd, PopMove, PopStore]
  const PUSH2: seq<Step<int>> := [Load(1, 30), LoadRead(1), CasWrite(1, false), Construct(1), CasReadEnd(1, false)]
  const WAKE: seq<Step<int>> := [CasWrite(0, false), Construct(0), CasReadEnd(0, false)]

  const SLEEPING: Producer<int> := Checked(10, 0, 1, 0)
  const AFTER_SLEEP: Ring<int> := Ring(2, 0, 0, 0, [Raw, Raw], [SLEEPING, Idle], Waiting, false, [], 0, 0, [])
  const AFTER_PUSH1: Ring<int> :=
    Ring(2, 0, 1, 1, [Live(20), Raw], [SLEEPING, Idle], Waiting, false, [Entry(1, 20)], 1, 0, [])
  const AFTER_POP: Ring<int> :=
    Ring(2, 1, 1, 1, [Raw, Raw], [SLEEPING, Idle], Waiting, false, [Entry(1, 20)], 1, 1, [20])
  const AFTER_PUSH2: Ring<int> :=
    Ring(2, 1, 0, 0, [Raw, Live(30)], [SLEEPING, Idle], Waiting, false, [Entry(1, 20), Entry(1, 30)], 2, 1, [20])
  const AFTER_WAKE: Ring<int> :=
    Ring(2, 1, 1, 1, [Live(10), Live(30)], [Idle, Idle], Waiting, false,
         [Entry(1, 20), Entry(1, 30), Entry(0, 10)], 3, 1, [20])

  lemma RunFrom<T>(s: Ring<T>, steps: seq<Step<T>>, k: nat)
    requires k < |steps| && Enabled(s, steps[k]) && Run(Apply(s, steps[k]), steps[k + 1..])
    ensures Run(s, steps[k..]) && Final(s, steps[k..]) == Final(Apply(s, steps[k]), steps[k + 1..])
    ensures LapFree(s, steps[k..]) ==> NoLap(s, steps[k])
    ensures GuardHolds(s, steps[k..]) ==> !GuardFails(s, steps[k])
  {
    assert steps[k..][1..] == steps[k + 1..];
  }

  lemma SleepPart()
    ensures Run(Init<int>(2, 2), SLEEP) && Final(Init<int>(2, 2), SLEEP) == AFTER_SLEEP
  {
    var s0: Ring<int> := Init<int>(2, 2);
    assert s0.cells == [Raw, Raw] && s0.producers == [Idle, Idle];
    var s1 := Apply(s0, SLEEP[0]);
    var s2 := Apply(s1, SLEEP[1]);
    assert s2 == AFTER_SLEEP;
    RunFrom(s1, SLEEP, 1);
    RunFrom(s0, SLEEP, 0);
    assert SLEEP[0..] == SLEEP;
  }

  lemma Push1Part()
    ensures Run(AFTER_SLEEP, PUSH1) && Final(AFTER_SLEEP, PUSH1) == AFTER_PUSH1
  {
    var s0: Ring<int> := AFTER_SLEEP;
    var s1 := Apply(s0, PUSH1[0]);
    var s2 := Apply(s1, PUSH1[1]);
    assert s2 == AFTER_SLEEP.(producers := [SLEEPING, Checked(20, 0, 1, 0)]);
    var s3 := Apply(s2, PUSH1[2]);
    var s4 := Apply(s3, PUSH1[3]);
    var s5 := Apply(s4, PUSH1[4]);
    assert s5 == AFTER_PUSH1;
    RunFrom(s4, PUSH1, 4);
    RunFrom(s3, PUSH1, 3);
    RunFrom(s2, PUSH1, 2);
    RunFrom(s1, PUSH1, 1);
    RunFrom(s0, PUSH1, 0);
    assert PUSH1[0..] == PUSH1;
  }

  lemma PopPart()
    ensures Run(AFTER_PUSH1, POP) && Final(AFTER_PUSH1, POP) == AFTER_POP
  {
    var s0: Ring<int> := AFTER_PUSH1;
    var s1 := Apply(s0, POP[0]);
    var s2 := Apply(s1, POP[1]);
    var s3 := Apply(s2, POP[2]);
    var s4 := Apply(s3, POP[3]);
    assert s4 == AFTER_POP;
    RunFrom(s3, POP, 3);
    RunFrom(s2, POP, 2);
    RunFrom(s1, POP, 1);
    RunFrom(s0, POP, 0);
    assert POP[0..] == POP;
  }

  lemma Push2Part()
    ensures Run(AFTER_POP, PUSH2) && Final(AFTER_POP, PUSH2) == AFTER_PUSH2
  {
    var s0: Ring<int> := AFTER_POP;
    var s1 := Apply(s0, PUSH2[0]);
    var s2 := Apply(s1, PUSH2[1]);
    assert s2 == AFTER_POP.(producers := [SLEEPING, Checked(30, 1, 0, 1)]);
    var s3 := Apply(s2, PUSH2[2]);
    var s4 := Apply(s3, PUSH2[3]);
    var s5 := Apply(s4, PUSH2[4]);
    assert s5 == AFTER_PUSH2;
    RunFrom(s4, PUSH2, 4);
    RunFrom(s3, PUSH2, 3);
    RunFrom(s2, PUSH2, 2);
    RunFrom(s1, PUSH2, 1);
    RunFrom(s0, PUSH2, 0);
    assert PUSH2[0..] == PUSH2;
  }

  lemma WakePart()
    ensures Run(AFTER_PUSH2, WAKE) && Final(AFTER_PUSH2, WAKE) == AFTER_WAKE
    ensures !LapFree(AFTER_PUSH2, WAKE) && !GuardHolds(AFTER_PUSH2, WAKE)
  {
    var s0: Ring<int> := AFTER_PUSH2;
    var s1 := Apply(s0, WAKE[0]);
    var s2 := Apply(s1, WAKE[1]);
    var s3 := Apply(s2, WAKE[2]);
    assert s3 == AFTER_WAKE;
    RunFrom(s2, WAKE, 2);
    RunFrom(s1, WAKE, 1);
    RunFrom(s0, WAKE, 0);
    assert WAKE[0..] == WAKE;
  }

  /** Without the hypothesis the ring loses values: the sleeper's check-out lands on
      a full ring, against its guard, and then both cells are live while the consumer
      sees it empty. */
  lemma SleeperLosesValues()
    ensures var steps := SLEEP + PUSH1 + POP + PUSH2 + WAKE;
      && Run(Init<int>(2, 2), steps)
      && !LapFree(Init<int>(2, 2), steps)
      && !GuardHolds(Init<int>(2, 2), steps)
      && !AlwaysSafe(Init<int>(2, 2), steps)
      && var s := Final(Init<int>(2, 2), steps);
         s.readi == s.readendi && s.cells == [Live(10), Live(30)] && s.popped == [20]
  {
    var s := Init<int>(2, 2);
    SleepPart();
    Push1Part();
    RunAppend(s, SLEEP, PUSH1);
    PopPart();
    RunAppend(s, SLEEP + PUSH1, POP);
    Push2Part();
    RunAppend(s, SLEEP + PUSH1 + POP, PUSH2);
    WakePart();
    RunAppend(s, SLEEP + PUSH1 + POP + PUSH2, WAKE);
    SafeExactly(2, 2, SLEEP + PUSH1 + POP + PUSH2 + WAKE);
  }
}
