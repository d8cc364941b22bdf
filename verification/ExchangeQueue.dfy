/** The triple buffer. */
module ExchangeQueues {

  /*
   The three-cell exchange between one reader and the writers, as a step system.

   Writers take a lock around a push (single_read_multiple_write); with one writer
   the lock is never contended and the steps are those of single_read_single_write.
   Each of the three write bits is its own atomic cell.
   */

  /** A constructed cell remembers which push built it; `number` is auxiliary. */
  datatype Cell<T> = Raw | Live(value: T, number: nat)

  datatype Writer<T> =
    | Idle
    | Begin(value: T)     // lock taken
    | Marked(value: T)    // bit set
    | Built               // cell constructed
    | Swapped             // exchanged with lasti
    | Unread              // found an item nobody read

  datatype Reader = Resting | Fetched | Reading | Taken | Cleared

  /** The value handed out, and which push it was; `number` is auxiliary. */
  datatype Receipt<T> = Receipt(number: nat, value: T)

  datatype State<T> = State(
    lasti: nat,
    readi: nat,
    writei: nat,
    bits: seq<bool>,
    cells: seq<Cell<T>>,
    writers: seq<Writer<T>>,
    reader: Reader,
    fault: bool,             // a live cell was built over, or a raw one was read or destroyed
    // history
    pushed: seq<T>,          // values published, in order
    destroyed: seq<nat>,     // how often each of them was destroyed
    popped: seq<Receipt<T>>  // what the reader got, in order
  )

  datatype Step<T> = Push(w: nat, value: T) | Write(w: nat) | Pop | Read

  function Init<T>(n: nat): (s: State<T>) {
    State(0, 1, 2, [false, false, false], [Raw, Raw, Raw], seq(n, _ => Idle), Resting, false, [], [], [])
  }

  /** The lock is free. */
  predicate Unlocked<T>(s: State<T>) {
    forall w :: 0 <= w < |s.writers| ==> s.writers[w].Idle?
  }

  /** Indices are what the permutation invariant says; stated to index with. */
  predicate InBounds<T>(s: State<T>) {
    s.lasti < 3 && s.readi < 3 && s.writei < 3 && |s.bits| == 3 && |s.cells| == 3
  }

  predicate Enabled<T>(s: State<T>, step: Step<T>) {
    InBounds(s) &&
    match step
    case Push(w, _) => w < |s.writers| && Unlocked(s)
    case Write(w) => w < |s.writers| && !s.writers[w].Idle?
    case Pop => s.reader.Resting?
    case Read => !s.reader.Resting?
  }

  function Enter<T>(s: State<T>, w: nat, x: Writer<T>): (r: State<T>)
    requires w < |s.writers|
  {
    s.(writers := s.writers[w := x])
  }

  /** Destroys the cell at i. */
  function DestructAt<T>(s: State<T>, i: nat): (r: State<T>)
    requires InBounds(s) && i < 3
  {
    var cell := s.cells[i];
    if cell.Live? && cell.number < |s.destroyed| then
      s.(cells := s.cells[i := Raw], destroyed := s.destroyed[cell.number := s.destroyed[cell.number] + 1])
    else
      s.(fault := true)
  }

  function Apply<T>(s: State<T>, step: Step<T>): (r: State<T>)
    requires Enabled(s, step)
  {
    match step
    case Push(w, v) => Enter(s, w, Begin(v))
    case Write(w) => WriteStep(s, w)
    case Pop => s.(readi := s.lasti, lasti := s.readi, reader := Fetched)
    case Read => ReadStep(s)
  }

  function WriteStep<T>(s: State<T>, w: nat): (r: State<T>)
    requires Enabled(s, Write(w))
  {
    match s.writers[w]
    case Begin(v) => Enter(s.(bits := s.bits[s.writei := true]), w, Marked(v))
    case Marked(v) =>
      Enter(s.(cells := s.cells[s.writei := Live(v, |s.pushed|)], fault := s.fault || s.cells[s.writei].Live?), w,
        Built)
    case Built =>
      var r := s.(writei := s.lasti, lasti := s.writei);
      var cell := s.cells[s.writei];
      Enter(if cell.Live? then r.(pushed := s.pushed + [cell.value], destroyed := s.destroyed + [0])
            else r.(fault := true), w, Swapped)
    case Swapped => Enter(s, w, if s.bits[s.writei] then Unread else Idle)
    case Unread => Enter(DestructAt(s, s.writei), w, Idle)
  }

  function ReadStep<T>(s: State<T>): (r: State<T>)
    requires Enabled(s, Read)
  {
    match s.reader
    case Fetched => s.(reader := if s.bits[s.readi] then Reading else Resting)
    case Reading =>
      var cell := s.cells[s.readi];
      if cell.Live? then s.(popped := s.popped + [Receipt(cell.number, cell.value)], reader := Taken)
      else s.(fault := true, reader := Taken)
    case Taken => s.(bits := s.bits[s.readi := false], reader := Cleared)
    case Cleared => DestructAt(s, s.readi).(reader := Resting)
  }

  // --------------------------------------------------------------- invariant

  ghost predicate Permutation<T>(s: State<T>) {
    InBounds(s) && s.lasti != s.readi && s.lasti != s.writei && s.readi != s.writei
  }

  /** Only the writer holding the lock is inside a push. */
  ghost predicate Locked<T>(s: State<T>, w: nat) {
    w < |s.writers| && !s.writers[w].Idle? && forall q :: 0 <= q < |s.writers| && q != w ==> s.writers[q].Idle?
  }

  /** The writer at work, Idle if there is none. */
  ghost predicate Working<T>(s: State<T>, x: Writer<T>) {
    if x.Idle? then Unlocked(s) else exists w: nat :: Locked(s, w) && s.writers[w] == x
  }

  ghost predicate LastOk<T>(s: State<T>)
    requires InBounds(s)
  {
    && (s.bits[s.lasti] <==> s.cells[s.lasti].Live?)
    && (s.cells[s.lasti].Live? ==> s.cells[s.lasti].number + 1 == |s.pushed|)
  }

  ghost predicate ReadOk<T>(s: State<T>)
    requires InBounds(s)
  {
    var cell, bit := s.cells[s.readi], s.bits[s.readi];
    match s.reader
    case Resting => cell.Raw? && !bit
    case Fetched => bit <==> cell.Live?
    case Reading => cell.Live? && bit
    case Taken => cell.Live? && bit
    case Cleared => cell.Live? && !bit
  }

  ghost predicate WriteOk<T>(s: State<T>, x: Writer<T>)
    requires InBounds(s)
  {
    var cell, bit := s.cells[s.writei], s.bits[s.writei];
    match x
    case Idle => cell.Raw?
    case Begin(_) => cell.Raw?
    case Marked(_) => cell.Raw? && bit
    case Built => cell.Live? && bit && cell.number == |s.pushed|
    case Swapped => bit <==> cell.Live?
    case Unread => cell.Live?
  }

  /** A published value is in a cell or was destroyed, one or the other, once. */
  ghost predicate Once<T>(s: State<T>, n: nat)
    requires InBounds(s) && n < |s.pushed| == |s.destroyed|
  {
    s.destroyed[n] + On(s.cells[0], n) + On(s.cells[1], n) + On(s.cells[2], n) == 1
  }

  function On<T>(cell: Cell<T>, n: nat): (k: nat) {
    if cell.Live? && cell.number == n then 1 else 0
  }

  /** A live cell holds the value its push published. */
  ghost predicate CellOk<T>(s: State<T>, i: nat, x: Writer<T>)
    requires InBounds(s) && i < 3
  {
    s.cells[i].Live? && !(x.Built? && i == s.writei) ==>
      s.cells[i].number < |s.pushed| && s.cells[i].value == s.pushed[s.cells[i].number]
  }

  /** The reader's values so far, and the one it holds, are in push order. */
  ghost predicate Ordered<T>(s: State<T>)
    requires InBounds(s)
  {
    && (forall i, j :: 0 <= i < j < |s.popped| ==> s.popped[i].number < s.popped[j].number)
    && (forall i :: 0 <= i < |s.popped| ==> s.popped[i].number < |s.pushed|)
    && ((s.reader.Fetched? || s.reader.Reading?) && s.cells[s.readi].Live? ==>
        forall i :: 0 <= i < |s.popped| ==> s.popped[i].number < s.cells[s.readi].number)
    && (s.cells[s.lasti].Live? ==>
        forall i :: 0 <= i < |s.popped| ==> s.popped[i].number < s.cells[s.lasti].number)
    && ((s.reader.Taken? || s.reader.Cleared?) ==>
        s.popped != [] && s.cells[s.readi].Live? && s.popped[|s.popped| - 1].number == s.cells[s.readi].number)
  }

  /** What the reader got is what was published. */
  ghost predicate Genuine<T>(s: State<T>) {
    forall i :: 0 <= i < |s.popped| ==>
      s.popped[i].number < |s.pushed| && s.popped[i].value == s.pushed[s.popped[i].number]
  }

  /** The reader got the newest value already. */
  predicate UpToDate<T>(s: State<T>) {
    s.popped != [] && s.popped[|s.popped| - 1].number + 1 == |s.pushed|
  }

  /** The newest value waits in the last cell, or the reader is about to take it or
      got it already. */
  ghost predicate NewestKnown<T>(s: State<T>)
    requires InBounds(s)
  {
    s.pushed != [] && s.cells[s.lasti].Raw? ==>
      || UpToDate(s)
      || ((s.reader.Fetched? || s.reader.Reading?) && s.cells[s.readi].Live? &&
          s.cells[s.readi].number + 1 == |s.pushed|)
  }

  ghost predicate Inv<T>(s: State<T>, x: Writer<T>) {
    && Permutation(s) && Working(s, x)
    && LastOk(s) && ReadOk(s) && WriteOk(s, x)
    && |s.destroyed| == |s.pushed|
    && (forall n: nat :: n < |s.pushed| ==> Once(s, n))
    && CellOk(s, 0, x) && CellOk(s, 1, x) && CellOk(s, 2, x)
    && Ordered(s) && Genuine(s) && NewestKnown(s)
    && !s.fault
  }

  // ---------------------------------------------------- every step keeps it

  lemma InitInv<T>(n: nat)
    ensures Inv(Init<T>(n), Idle)
  {
  }

  /** A writer that is inside a push is the one at work. */
  lemma AtWork<T>(s: State<T>, w: nat, x: Writer<T>)
    requires Working(s, x) && w < |s.writers| && !s.writers[w].Idle?
    ensures x == s.writers[w] && Locked(s, w)
  {
  }

  lemma Alone<T>(s: State<T>, w: nat, y: Writer<T>)
    requires w < |s.writers|
    requires forall q :: 0 <= q < |s.writers| && q != w ==> s.writers[q].Idle?
    ensures Working(Enter(s, w, y), y)
  {
    var r := Enter(s, w, y);
    assert !y.Idle? ==> Locked(r, w);
  }

  lemma KeepPush<T>(s: State<T>, w: nat, v: T, x: Writer<T>)
    requires Inv(s, x) && Enabled(s, Push(w, v))
    ensures Inv(Apply(s, Push(w, v)), Begin(v))
  {
    Alone(s, w, Begin(v));
    var r := Apply(s, Push(w, v));
    forall n: nat | n < |r.pushed| ensures Once(r, n) { assert Once(s, n); }
  }

  lemma KeepMark<T>(s: State<T>, w: nat, x: Writer<T>)
    requires Inv(s, x) && Enabled(s, Write(w)) && (s.writers[w].Begin? || s.writers[w].Swapped?)
    ensures Inv(Apply(s, Write(w)), Apply(s, Write(w)).writers[w])
  {
    AtWork(s, w, x);
    var r := Apply(s, Write(w));
    Alone(s, w, r.writers[w]);
    forall n: nat | n < |r.pushed| ensures Once(r, n) { assert Once(s, n); }
  }

  lemma KeepBuild<T>(s: State<T>, w: nat, x: Writer<T>)
    requires Inv(s, x) && Enabled(s, Write(w)) && s.writers[w].Marked?
    ensures Inv(Apply(s, Write(w)), Built)
  {
    AtWork(s, w, x);
    var r := Apply(s, Write(w));
    Alone(s, w, Built);
    forall n: nat | n < |r.pushed| ensures Once(r, n) { assert Once(s, n); }
  }

  /** Publishing: the cell just built becomes the last one. */
  lemma KeepExchange<T>(s: State<T>, w: nat, x: Writer<T>)
    requires Inv(s, x) && Enabled(s, Write(w)) && s.writers[w].Built?
    ensures Inv(Apply(s, Write(w)), Swapped)
  {
    AtWork(s, w, x);
    var r := Apply(s, Write(w));
    Alone(s, w, Swapped);
    forall n: nat | n < |r.pushed| ensures Once(r, n) {
      if n < |s.pushed| { assert Once(s, n); }
    }
  }

  /** Destroying the value of a cell settles that value and no other. */
  lemma DestructOnce<T>(s: State<T>, i: nat, n: nat)
    requires InBounds(s) && i < 3 && n < |s.pushed| == |s.destroyed|
    requires s.cells[i].Live? && s.cells[i].number < |s.destroyed| && Once(s, n)
    ensures Once(DestructAt(s, i), n)
  {
  }

  lemma KeepDrop<T>(s: State<T>, w: nat, x: Writer<T>)
    requires Inv(s, x) && Enabled(s, Write(w)) && s.writers[w].Unread?
    ensures Inv(Apply(s, Write(w)), Idle)
  {
    AtWork(s, w, x);
    var r := Apply(s, Write(w));
    Alone(s, w, Idle);
    assert CellOk(s, s.writei, x);
    forall n: nat | n < |r.pushed| ensures Once(r, n) { DestructOnce(s, s.writei, n); }
  }

  lemma KeepPop<T>(s: State<T>, x: Writer<T>)
    requires Inv(s, x) && Enabled(s, Pop)
    ensures Inv(Apply(s, Pop), x)
  {
    var r := Apply(s, Pop);
    SameWriters(s, r, x);
    forall n: nat | n < |r.pushed| ensures Once(r, n) { assert Once(s, n); }
  }

  lemma SameWriters<T>(s: State<T>, r: State<T>, x: Writer<T>)
    requires Working(s, x) && r.writers == s.writers
    ensures Working(r, x)
  {
    forall w: nat | Locked(s, w) ensures Locked(r, w) {}
  }

  lemma KeepTest<T>(s: State<T>, x: Writer<T>)
    requires Inv(s, x) && (s.reader.Fetched? || s.reader.Taken?)
    ensures Inv(Apply(s, Read), x)
  {
    var r := Apply(s, Read);
    SameWriters(s, r, x);
    forall n: nat | n < |r.pushed| ensures Once(r, n) { assert Once(s, n); }
  }

  /** The value read is older than one that waits meanwhile. */
  lemma KeepTake<T>(s: State<T>, x: Writer<T>)
    requires Inv(s, x) && s.reader.Reading?
    ensures Inv(Apply(s, Read), x)
  {
    var r := Apply(s, Read);
    SameWriters(s, r, x);
    assert CellOk(s, s.readi, x);
    assert Once(s, s.cells[s.readi].number);
    forall n: nat | n < |r.pushed| ensures Once(r, n) { assert Once(s, n); }
  }

  lemma KeepClear<T>(s: State<T>, x: Writer<T>)
    requires Inv(s, x) && s.reader.Cleared?
    ensures Inv(Apply(s, Read), x)
  {
    var r := Apply(s, Read);
    SameWriters(s, r, x);
    assert CellOk(s, s.readi, x);
    forall n: nat | n < |r.pushed| ensures Once(r, n) { DestructOnce(s, s.readi, n); }
  }

  /** The writer at work after a step. */
  function AfterStep<T>(s: State<T>, step: Step<T>, x: Writer<T>): (y: Writer<T>)
    requires Enabled(s, step)
  {
    match step
    case Push(_, v) => Begin(v)
    case Write(w) => Apply(s, step).writers[w]
    case Pop => x
    case Read => x
  }

  lemma KeepStep<T>(s: State<T>, step: Step<T>, x: Writer<T>)
    requires Inv(s, x) && Enabled(s, step)
    ensures Inv(Apply(s, step), AfterStep(s, step, x))
  {
    match step
    case Push(w, v) => KeepPush(s, w, v, x);
    case Write(w) =>
      if s.writers[w].Built? {
        KeepExchange(s, w, x);
      } else if s.writers[w].Unread? {
        KeepDrop(s, w, x);
      } else if s.writers[w].Marked? {
        KeepBuild(s, w, x);
      } else {
        KeepMark(s, w, x);
      }
    case Pop => KeepPop(s, x);
    case Read =>
      if s.reader.Reading? {
        KeepTake(s, x);
      } else if s.reader.Cleared? {
        KeepClear(s, x);
      } else {
        KeepTest(s, x);
      }
  }

  // ------------------------------------------------------------ main results

  predicate Run<T>(s: State<T>, steps: seq<Step<T>>)
    decreases |steps|
  {
    steps == [] || (Enabled(s, steps[0]) && Run(Apply(s, steps[0]), steps[1..]))
  }

  function Final<T>(s: State<T>, steps: seq<Step<T>>): (r: State<T>)
    requires Run(s, steps)
    decreases |steps|
  {
    if steps == [] then s else Final(Apply(s, steps[0]), steps[1..])
  }

  lemma {:induction false} KeepRun<T>(s: State<T>, steps: seq<Step<T>>, x: Writer<T>) returns (y: Writer<T>)
    requires Inv(s, x) && Run(s, steps)
    ensures Inv(Final(s, steps), y)
    decreases |steps|
  {
    if steps == [] {
      y := x;
    } else {
      KeepStep(s, steps[0], x);
      y := KeepRun(Apply(s, steps[0]), steps[1..], AfterStep(s, steps[0], x));
    }
  }

  /** In every interleaving the indices stay a permutation, no cell is built over,
      read or destroyed out of turn, the reader's values are those published, in
      strictly increasing push order, no value is destroyed twice, and whatever is
      still constructed of the values published is in exactly one cell. */
  lemma RunsAreSafe<T>(n: nat, steps: seq<Step<T>>)
    requires Run(Init<T>(n), steps)
    ensures var s := Final(Init<T>(n), steps);
      && Permutation(s)
      && !s.fault
      && (forall i, j :: 0 <= i < j < |s.popped| ==> s.popped[i].number < s.popped[j].number)
      && Genuine(s)
      && |s.destroyed| == |s.pushed|
      && (forall k: nat :: k < |s.pushed| ==> Once(s, k))
  {
    InitInv<T>(n);
    var y := KeepRun(Init<T>(n), steps, Idle);
  }

  /** What a pop fetches is the newest value published; if it finds none, nothing was
      published yet or the newest value was read before, whatever the writers do. */
  lemma PopFetchesNewest<T>(s: State<T>, x: Writer<T>)
    requires Inv(s, x) && Enabled(s, Pop)
    ensures var r := Apply(s, Pop);
      if s.bits[s.lasti] then
        && r.cells[r.readi].Live? && r.cells[r.readi].number + 1 == |s.pushed|
        && r.cells[r.readi].value == s.pushed[|s.pushed| - 1] && s.destroyed[|s.pushed| - 1] == 0
        && !UpToDate(s)
      else
        s.pushed == [] || UpToDate(s)
  {
    if s.bits[s.lasti] {
      assert Once(s, s.cells[s.lasti].number);
      assert CellOk(s, s.lasti, x);
    }
  }

  // ---------------------------------------------- what the calls are for

  /** The value of a push that is not published yet. */
  function InFlight<T>(s: State<T>, x: Writer<T>): (vs: seq<T>)
    requires InBounds(s)
  {
    match x
    case Begin(v) => [v]
    case Marked(v) => [v]
    case Built => if s.cells[s.writei].Live? then [s.cells[s.writei].value] else []
    case Idle => []
    case Swapped => []
    case Unread => []
  }

  function OfferedBy<T>(step: Step<T>): (vs: seq<T>) {
    if step.Push? then [step.value] else []
  }

  /** The values the pushes of a run are called with, in order. */
  function Offered<T>(steps: seq<Step<T>>): (vs: seq<T>) {
    if steps == [] then [] else OfferedBy(steps[0]) + Offered(steps[1..])
  }

  lemma WritePublishes<T>(s: State<T>, w: nat)
    requires Enabled(s, Write(w)) && Permutation(s) && WriteOk(s, s.writers[w])
    ensures var r := Apply(s, Write(w));
      InBounds(r) && r.pushed + InFlight(r, r.writers[w]) == s.pushed + InFlight(s, s.writers[w])
  {
  }

  lemma ReadPublishes<T>(s: State<T>, step: Step<T>, x: Writer<T>)
    requires Enabled(s, step) && Permutation(s) && (step.Pop? || step.Read?)
    ensures var r := Apply(s, step);
      InBounds(r) && r.pushed == s.pushed && InFlight(r, x) == InFlight(s, x)
  {
  }

  lemma StepPublishes<T>(s: State<T>, step: Step<T>, x: Writer<T>)
    requires Inv(s, x) && Enabled(s, step)
    ensures var r, y := Apply(s, step), AfterStep(s, step, x);
      InBounds(r) && r.pushed + InFlight(r, y) == s.pushed + InFlight(s, x) + OfferedBy(step)
  {
    match step
    case Push(w, v) => assert x.Idle?;
    case Write(w) =>
      AtWork(s, w, x);
      WritePublishes(s, w);
    case Pop => ReadPublishes(s, step, x);
    case Read => ReadPublishes(s, step, x);
  }

  lemma JoinsOn<T>(all: seq<T>, before: seq<T>, now: seq<T>, rest: seq<T>)
    requires all == (before + now) + rest
    ensures all == before + (now + rest)
  {
  }

  /** The pushes so far were called with vs; that of writer y, the one at work, may be
      still to come. */
  ghost predicate Accounts<T>(s: State<T>, y: Writer<T>, vs: seq<T>) {
    InBounds(s) && Working(s, y) && vs == s.pushed + InFlight(s, y)
  }

  lemma {:induction false} RunPublishes<T>(s: State<T>, steps: seq<Step<T>>, x: Writer<T>)
    requires Inv(s, x) && Run(s, steps)
    ensures exists y :: Accounts(Final(s, steps), y, s.pushed + InFlight(s, x) + Offered(steps))
    decreases |steps|
  {
    var vs := s.pushed + InFlight(s, x);
    if steps == [] {
      assert vs + Offered(steps) == vs;
      assert Accounts(Final(s, steps), x, vs + Offered(steps));
    } else {
      var r, z := Apply(s, steps[0]), AfterStep(s, steps[0], x);
      StepPublishes(s, steps[0], x);
      KeepStep(s, steps[0], x);
      RunPublishes(r, steps[1..], z);
      var all := r.pushed + InFlight(r, z) + Offered(steps[1..]);
      var y :| Accounts(Final(r, steps[1..]), y, all);
      JoinsOn(all, vs, OfferedBy(steps[0]), Offered(steps[1..]));
      assert Accounts(Final(s, steps), y, vs + Offered(steps));
    }
  }

  /** Every push publishes the value it was called with, once and in the order of the
      calls. */
  lemma PushesArePublished<T>(n: nat, steps: seq<Step<T>>)
    requires Run(Init<T>(n), steps)
    ensures exists y :: Accounts(Final(Init<T>(n), steps), y, Offered(steps))
    ensures Unlocked(Final(Init<T>(n), steps)) ==> Final(Init<T>(n), steps).pushed == Offered(steps)
  {
    InitInv<T>(n);
    RunPublishes(Init<T>(n), steps, Idle);
    assert Init<T>(n).pushed + InFlight(Init<T>(n), Idle) + Offered(steps) == Offered(steps);
  }

  /** What the reader is about to get. */
  function Expected<T>(s: State<T>): (rs: seq<Receipt<T>>)
    requires InBounds(s)
  {
    var cell := s.cells[s.readi];
    if cell.Live? && (s.reader.Reading? || (s.reader.Fetched? && s.bits[s.readi])) then
      [Receipt(cell.number, cell.value)]
    else []
  }

  /** What a pop is for: the newest value published when it exchanges the cells, unless
      it was read before. */
  function Newest<T>(s: State<T>, step: Step<T>): (rs: seq<Receipt<T>>) {
    if step.Pop? && s.pushed != [] && !UpToDate(s) then [Receipt(|s.pushed| - 1, s.pushed[|s.pushed| - 1])] else []
  }

  function AllNewest<T>(s: State<T>, steps: seq<Step<T>>): (rs: seq<Receipt<T>>)
    requires Run(s, steps)
    decreases |steps|
  {
    if steps == [] then [] else Newest(s, steps[0]) + AllNewest(Apply(s, steps[0]), steps[1..])
  }

  /** The reader's cell is none of the writers' business. */
  lemma WriteDelivers<T>(s: State<T>, w: nat)
    requires Enabled(s, Write(w)) && Permutation(s)
    ensures var r := Apply(s, Write(w));
      && InBounds(r) && r.popped == s.popped && r.reader == s.reader && r.readi == s.readi
      && r.cells[r.readi] == s.cells[s.readi] && r.bits[r.readi] == s.bits[s.readi]
  {
    var r := Apply(s, Write(w));
    match s.writers[w]
    case Begin(_) => assert r.cells == s.cells;
    case Marked(_) => assert r.bits == s.bits;
    case Built => assert r.cells == s.cells && r.bits == s.bits;
    case Swapped => assert r.cells == s.cells && r.bits == s.bits;
    case Unread => assert r.bits == s.bits;
  }

  lemma ReadDelivers<T>(s: State<T>)
    requires Enabled(s, Read) && ReadOk(s)
    ensures var r := Apply(s, Read);
      InBounds(r) && r.popped + Expected(r) == s.popped + Expected(s)
  {
  }

  lemma PopDelivers<T>(s: State<T>, x: Writer<T>)
    requires Inv(s, x) && Enabled(s, Pop)
    ensures Expected(s) == [] && Expected(Apply(s, Pop)) == Newest(s, Pop)
  {
    PopFetchesNewest(s, x);
  }

  lemma StepDelivers<T>(s: State<T>, step: Step<T>, x: Writer<T>)
    requires Inv(s, x) && Enabled(s, step)
    ensures var r := Apply(s, step);
      InBounds(r) && r.popped + Expected(r) == s.popped + Expected(s) + Newest(s, step)
  {
    match step
    case Push(w, v) =>
    case Write(w) => WriteDelivers(s, w);
    case Pop => PopDelivers(s, x);
    case Read => ReadDelivers(s);
  }

  /** The reader gets, for each of its pops in order, the newest value published at that
      moment if it had not got it before, and nothing else. */
  lemma {:induction false} PopsDeliver<T>(s: State<T>, steps: seq<Step<T>>, x: Writer<T>)
    requires Inv(s, x) && Run(s, steps)
    ensures var e := Final(s, steps);
      InBounds(e) && e.popped + Expected(e) == s.popped + Expected(s) + AllNewest(s, steps)
    decreases |steps|
  {
    if steps != [] {
      var r := Apply(s, steps[0]);
      StepDelivers(s, steps[0], x);
      KeepStep(s, steps[0], x);
      PopsDeliver(r, steps[1..], AfterStep(s, steps[0], x));
      JoinsOn(Final(s, steps).popped + Expected(Final(s, steps)), s.popped + Expected(s), Newest(s, steps[0]),
              AllNewest(r, steps[1..]));
    }
  }

  /** Between calls every value published was destroyed exactly once, except the
      newest one if it waits to be read. */
  lemma Quiescent<T>(s: State<T>, k: nat)
    requires Inv(s, Idle) && s.reader.Resting? && k < |s.pushed|
    ensures s.destroyed[k] == if s.bits[s.lasti] && k + 1 == |s.pushed| then 0 else 1
  {
    assert Once(s, k);
  }
}
