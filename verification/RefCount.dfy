/** Intrusive shared and weak reference counting as a step system. */
module RefCounting {

  import opened Sums

  /*
   Intrusive shared and weak reference counting as a step system: any number of
   threads run copies, moves, assignments, resets, destructions and locks on any
   number of shared_ptr and weak_ptr objects, one step per atomic access to a count
   and one each for destroying a value and freeing a block.

   Two threads may read the same pointer object at once, but as for any C++ object
   nobody else uses one that is being written, and nobody writes one that an operation
   under way still reads: starting such an operation is not enabled.
   */

  datatype Kind = Shared | Weak
  datatype Pointer = Null | To(block: nat)

  /** A shared_ptr or weak_ptr object; InUse while a thread writes it. */
  datatype Handle = Absent | Ptr(kind: Kind, data: Pointer) | InUse(thread: nat)

  /** shared_data: the counts, and how often the value was destroyed and the memory freed. */
  datatype Block = Block(shared: int, weak: int, destructs: nat, frees: nat)

  /** What an operation does in the end: dst receives `incoming` (or goes away),
      `clear` is left null.  `outgoing` is what dst pointed to and has to let go;
      `src` is the pointer object read, and `again` says that it is read once more when
      the pointer is stored, as copy-assignment and lock do. */
  datatype Goal = Goal(dst: nat, kind: Kind, keep: bool, outgoing: Pointer, incoming: Pointer,
                       src: nat, clear: nat, again: bool)

  datatype Stage =
    | Idle
    | IncShared(b: nat, goal: Goal)              // shared_count_.fetch_add
    | LoadShared(b: nat, goal: Goal)             // lock: shared_count_.load
    | CasShared(b: nat, seen: int, goal: Goal)   // lock: shared_count_.compare_exchange
    | IncWeak(b: nat, goal: Goal)                // weak_count_.fetch_add
    | DecShared(b: nat, goal: Goal)              // shared_count_.fetch_sub
    | Destruct(b: nat, goal: Goal)               // storing_.destruct
    | DecWeak(b: nat, goal: Goal)                // weak_count_.fetch_sub
    | Free(b: nat, goal: Goal)                   // destroy and deallocate
    | Store(goal: Goal)                          // write the pointer objects

  datatype State = State(handles: seq<Handle>, blocks: seq<Block>, threads: seq<Stage>, fault: bool)

  datatype Step =
    | Make(h: nat)                               // shared_ptr(in_place, ...)
    | MakeNull(h: nat, kind: Kind)               // default construction, or failed allocation
    | Copy(t: nat, src: nat, dst: nat, kind: Kind)
    | Move(t: nat, src: nat, dst: nat)
    | Reset(t: nat, h: nat)
    | Destroy(t: nat, h: nat)
    | Lock(t: nat, src: nat, dst: nat)
    | Advance(t: nat)

  // ------------------------------------------------------------------- steps

  /** The pointer object an operation reads, up to its end. */
  predicate IsReading(st: Stage, h: nat) {
    !st.Idle? && st.goal.src == h && st.goal.dst != h
  }

  predicate Writable(s: State, h: nat) {
    h < |s.handles| && !s.handles[h].InUse? && forall t :: 0 <= t < |s.threads| ==> !IsReading(s.threads[t], h)
  }

  predicate Ready(s: State, t: nat) {
    t < |s.threads| && s.threads[t].Idle?
  }

  function Init(handles: nat, threads: nat): (s: State) {
    State(seq(handles, _ => Absent), [], seq(threads, _ => Idle), false)
  }

  predicate Enabled(s: State, step: Step) {
    match step
    case Make(h) => h < |s.handles| && s.handles[h].Absent?
    case MakeNull(h, _) => h < |s.handles| && s.handles[h].Absent?
    case Copy(t, src, dst, kind) =>
      && Ready(s, t) && src < |s.handles| && s.handles[src].Ptr? && Writable(s, dst)
      && (match s.handles[dst]
          case Absent => kind.Shared? ==> s.handles[src].kind.Shared?
          case Ptr(k, _) => kind == k == s.handles[src].kind
          case InUse(_) => false)
    case Move(t, src, dst) =>
      && Ready(s, t) && Writable(s, src) && s.handles[src].Ptr? && Writable(s, dst)
      && (s.handles[dst].Ptr? ==> s.handles[dst].kind == s.handles[src].kind)
    case Reset(t, h) => Ready(s, t) && Writable(s, h) && s.handles[h].Ptr?
    case Destroy(t, h) => Ready(s, t) && Writable(s, h) && s.handles[h].Ptr?
    case Lock(t, src, dst) =>
      && Ready(s, t) && src < |s.handles| && s.handles[src].Ptr? && s.handles[src].kind.Weak?
      && Writable(s, dst) && s.handles[dst].Absent?
    case Advance(t) => t < |s.threads| && !s.threads[t].Idle? && BlockOf(s.threads[t]) <= |s.blocks|
                       && HandlesOf(s.threads[t]) < |s.handles|
  }

  function Max(a: nat, b: nat): (m: nat) {
    if a < b then b else a
  }

  // bounds for Advance to be defined; every reachable state meets them
  function BlockOf(st: Stage): (n: nat) {
    if st.Idle? || st.Store? then 0 else st.b + 1
  }

  function HandlesOf(st: Stage): (n: nat) {
    if st.Idle? then 0 else Max(st.goal.src, Max(st.goal.dst, st.goal.clear))
  }

  function Old(h: Handle): (p: Pointer) {
    if h.Ptr? then h.data else Null
  }

  /** dec() if the pointer object held something, else straight to the store. */
  function Release(goal: Goal): (st: Stage) {
    match goal.outgoing
    case Null => Store(goal)
    case To(b) => if goal.kind.Shared? then DecShared(b, goal) else DecWeak(b, goal)
  }

  /** inc() if there is something to share, then the release. */
  function Acquire(goal: Goal): (st: Stage) {
    match goal.incoming
    case Null => Release(goal)
    case To(b) => if goal.kind.Shared? then IncShared(b, goal) else IncWeak(b, goal)
  }

  function Take(s: State, t: nat, h: nat): (r: State)
    requires h < |s.handles|
  {
    s.(handles := s.handles[h := InUse(t)])
  }

  function Enter(s: State, t: nat, st: Stage): (r: State)
    requires t < |s.threads|
  {
    s.(threads := s.threads[t := st])
  }

  function Apply(s: State, step: Step): (r: State)
    requires Enabled(s, step)
  {
    match step
    case Make(h) =>
      s.(handles := s.handles[h := Ptr(Shared, To(|s.blocks|))], blocks := s.blocks + [Block(1, 1, 0, 0)])
    case MakeNull(h, kind) => s.(handles := s.handles[h := Ptr(kind, Null)])
    case Copy(t, src, dst, kind) =>
      var goal := Goal(dst, kind, true, Old(s.handles[dst]), s.handles[src].data, src, dst, s.handles[dst].Ptr?);
      Enter(Take(s, t, dst), t, Acquire(goal))
    case Move(t, src, dst) =>
      var goal := Goal(dst, s.handles[src].kind, true, Old(s.handles[dst]),
                       if src == dst then Null else s.handles[src].data, src, src, false);
      Enter(Take(Take(s, t, dst), t, src), t, Release(goal))
    case Reset(t, h) =>
      Enter(Take(s, t, h), t, Release(Goal(h, s.handles[h].kind, true, s.handles[h].data, Null, h, h, false)))
    case Destroy(t, h) =>
      Enter(Take(s, t, h), t, Release(Goal(h, s.handles[h].kind, false, s.handles[h].data, Null, h, h, false)))
    case Lock(t, src, dst) =>
      var goal := Goal(dst, Shared, true, Null, s.handles[src].data, src, dst, true);
      Enter(Take(s, t, dst), t, if goal.incoming.Null? then Store(goal) else LoadShared(goal.incoming.block, goal))
    case Advance(t) => AdvanceStage(s, t)
  }

  /** A step on the counts of block b, a fault if its memory is gone. */
  function Touch(s: State, b: nat, block: Block): (r: State)
    requires b < |s.blocks|
  {
    s.(blocks := s.blocks[b := block], fault := s.fault || s.blocks[b].frees > 0)
  }

  function AdvanceStage(s: State, t: nat): (r: State)
    requires Enabled(s, Advance(t))
  {
    match s.threads[t]
    case IncShared(b, goal) =>
      var x := s.blocks[b];
      Enter(Touch(s, b, x.(shared := x.shared + 1)), t, IncWeak(b, goal))
    case LoadShared(b, goal) =>
      Enter(Touch(s, b, s.blocks[b]), t, Seen(b, s.blocks[b].shared, goal))
    case CasShared(b, seen, goal) =>
      var x := s.blocks[b];
      if x.shared == seen then
        Enter(Touch(s, b, x.(shared := seen + 1)), t, IncWeak(b, goal))
      else
        Enter(Touch(s, b, x), t, Seen(b, x.shared, goal))
    case IncWeak(b, goal) =>
      var x := s.blocks[b];
      Enter(Touch(s, b, x.(weak := x.weak + 1)), t, Release(goal))
    case DecShared(b, goal) =>
      var x := s.blocks[b];
      Enter(Touch(s, b, x.(shared := x.shared - 1)), t, if x.shared == 1 then Destruct(b, goal) else DecWeak(b, goal))
    case Destruct(b, goal) =>
      var x := s.blocks[b];
      Enter(Touch(s, b, x.(destructs := x.destructs + 1)), t, DecWeak(b, goal))
    case DecWeak(b, goal) =>
      var x := s.blocks[b];
      Enter(Touch(s, b, x.(weak := x.weak - 1)), t, if x.weak == 1 then Free(b, goal) else Store(goal))
    case Free(b, goal) =>
      var x := s.blocks[b];
      Enter(Touch(s, b, x.(frees := x.frees + 1)), t, Store(goal))
    case Store(goal) =>
      var dst := if goal.keep then Ptr(goal.kind, Fetched(s, goal)) else Absent;
      Enter(s.(handles := s.handles[goal.clear := Ptr(goal.kind, Null)][goal.dst := dst]), t, Idle)
  }

  /** The pointer that is stored: what the source holds by then, if it is read again. */
  function Fetched(s: State, goal: Goal): (p: Pointer)
    requires goal.src < |s.handles|
  {
    if goal.again && goal.src != goal.dst then Old(s.handles[goal.src]) else goal.incoming
  }

  /** lock goes on only with a count it saw above zero; else it gives out nothing. */
  function Seen(b: nat, seen: int, goal: Goal): (st: Stage) {
    if 0 < seen then CasShared(b, seen, goal) else Store(goal.(incoming := Null, again := false))
  }

  // --------------------------------------------------------------- invariant

  function PointerHolds(part: Kind, kind: Kind, p: Pointer, b: nat): (n: nat) {
    if p == To(b) && (part.Weak? || kind.Shared?) then 1 else 0
  }

  /** How many shared (weak) parts of block b a pointer object holds: a shared_ptr
      holds one of each. */
  function HandleHolds(part: Kind, b: nat): (f: Handle -> nat) {
    (h: Handle) => if h.Ptr? then PointerHolds(part, h.kind, h.data, b) else 0
  }

  /** The parts an operation in progress holds: those `outgoing` still has to give back,
      and those of `incoming` it has already taken. */
  function StageHolds(part: Kind, b: nat): (f: Stage -> nat) {
    (st: Stage) =>
      match st
      case Idle => 0
      case IncShared(_, g) => PointerHolds(part, g.kind, g.outgoing, b)
      case LoadShared(_, g) => PointerHolds(part, g.kind, g.outgoing, b)
      case CasShared(_, _, g) => PointerHolds(part, g.kind, g.outgoing, b)
      case IncWeak(c, g) =>
        PointerHolds(part, g.kind, g.outgoing, b) + (if part.Shared? && g.kind.Shared? && c == b then 1 else 0)
      case DecShared(_, g) => PointerHolds(part, g.kind, g.outgoing, b) + PointerHolds(part, g.kind, g.incoming, b)
      case Destruct(c, g) => (if part.Weak? && c == b then 1 else 0) + PointerHolds(part, g.kind, g.incoming, b)
      case DecWeak(c, g) => (if part.Weak? && c == b then 1 else 0) + PointerHolds(part, g.kind, g.incoming, b)
      case Free(_, g) => PointerHolds(part, g.kind, g.incoming, b)
      case Store(g) => PointerHolds(part, g.kind, g.incoming, b)
  }

  function AtDestruct(b: nat): (f: Stage -> nat) {
    (st: Stage) => if st.Destruct? && st.b == b then 1 else 0
  }

  function AtFree(b: nat): (f: Stage -> nat) {
    (st: Stage) => if st.Free? && st.b == b then 1 else 0
  }

  /** All parts of block b there are, with pointer objects and with operations. */
  function Parts(s: State, part: Kind, b: nat): (n: nat) {
    Sum(s.handles, HandleHolds(part, b)) + Sum(s.threads, StageHolds(part, b))
  }

  ghost predicate BlockOk(s: State, b: nat)
    requires b < |s.blocks|
  {
    var x := s.blocks[b];
    && x.shared == Parts(s, Shared, b)
    && x.weak == Parts(s, Weak, b)
    // destroying has happened, or is about to, exactly if the last shared part is gone
    && x.destructs + Sum(s.threads, AtDestruct(b)) == (if x.shared == 0 then 1 else 0)
    && x.frees + Sum(s.threads, AtFree(b)) == (if x.weak == 0 then 1 else 0)
  }

  ghost predicate InRange(s: State, p: Pointer) {
    p.To? ==> p.block < |s.blocks|
  }

  /** While a count of b is raised, somebody holds a part of it. */
  ghost predicate Sourced(s: State, goal: Goal, b: nat, part: Kind) {
    if goal.src == goal.dst then goal.outgoing == To(b) && (part.Weak? || goal.kind.Shared?)
    else
      && goal.src < |s.handles| && s.handles[goal.src].Ptr? && s.handles[goal.src].data == To(b)
      && (part.Weak? || s.handles[goal.src].kind.Shared?)
  }

  /** A source that will be read again still holds what it held at first. */
  ghost predicate Steady(s: State, goal: Goal) {
    goal.src < |s.handles| &&
    (goal.again && goal.src != goal.dst ==> s.handles[goal.src].Ptr? && s.handles[goal.src].data == goal.incoming)
  }

  ghost predicate StageOk(s: State, t: nat)
    requires t < |s.threads|
  {
    var st := s.threads[t];
    !st.Idle? ==>
      && st.goal.dst < |s.handles| && s.handles[st.goal.dst] == InUse(t)
      && st.goal.clear < |s.handles| && s.handles[st.goal.clear] == InUse(t) && Steady(s, st.goal)
      && InRange(s, st.goal.outgoing) && InRange(s, st.goal.incoming)
      && (!st.goal.keep ==> st.goal.incoming.Null?)
      && (!st.Store? ==> st.b < |s.blocks|)
      && (match st
          case Idle => true
          case IncShared(b, g) => g.incoming == To(b) && g.kind.Shared? && Sourced(s, g, b, Shared)
          case LoadShared(b, g) => g.incoming == To(b) && g.kind.Shared? && g.outgoing.Null? && Sourced(s, g, b, Weak)
          case CasShared(b, seen, g) =>
            g.incoming == To(b) && g.kind.Shared? && g.outgoing.Null? && Sourced(s, g, b, Weak) && 0 < seen
          case IncWeak(b, g) => g.incoming == To(b) && Sourced(s, g, b, Weak)
          case DecShared(b, g) => g.outgoing == To(b) && g.kind.Shared?
          case Destruct(b, g) => true
          case DecWeak(b, g) => true
          case Free(b, g) => true
          case Store(g) => true)
  }

  ghost predicate Inv(s: State) {
    && (forall b: nat :: b < |s.blocks| ==> BlockOk(s, b))
    && (forall t: nat :: t < |s.threads| ==> StageOk(s, t))
    && (forall h: nat :: h < |s.handles| && s.handles[h].Ptr? ==> InRange(s, s.handles[h].data))
    && !s.fault
  }

  // ---------------------------------------------------- every step keeps it

  lemma ThreadSums(s: State, t: nat, st: Stage, b: nat)
    requires t < |s.threads|
    ensures var r := s.threads[t := st];
      && Sum(r, StageHolds(Shared, b)) ==
           Sum(s.threads, StageHolds(Shared, b)) - StageHolds(Shared, b)(s.threads[t]) + StageHolds(Shared, b)(st)
      && Sum(r, StageHolds(Weak, b)) ==
           Sum(s.threads, StageHolds(Weak, b)) - StageHolds(Weak, b)(s.threads[t]) + StageHolds(Weak, b)(st)
      && Sum(r, AtDestruct(b)) == Sum(s.threads, AtDestruct(b)) - AtDestruct(b)(s.threads[t]) + AtDestruct(b)(st)
      && Sum(r, AtFree(b)) == Sum(s.threads, AtFree(b)) - AtFree(b)(s.threads[t]) + AtFree(b)(st)
    ensures StageHolds(Shared, b)(s.threads[t]) <= Sum(s.threads, StageHolds(Shared, b))
    ensures StageHolds(Weak, b)(s.threads[t]) <= Sum(s.threads, StageHolds(Weak, b))
    ensures AtDestruct(b)(s.threads[t]) <= Sum(s.threads, AtDestruct(b))
    ensures AtFree(b)(s.threads[t]) <= Sum(s.threads, AtFree(b))
  {
    SumUpdate(s.threads, t, st, StageHolds(Shared, b));
    SumUpdate(s.threads, t, st, StageHolds(Weak, b));
    SumUpdate(s.threads, t, st, AtDestruct(b));
    SumUpdate(s.threads, t, st, AtFree(b));
  }

  lemma HandleSums(handles: seq<Handle>, h: nat, x: Handle, b: nat)
    requires h < |handles|
    ensures var r := handles[h := x];
      && Sum(r, HandleHolds(Shared, b)) ==
           Sum(handles, HandleHolds(Shared, b)) - HandleHolds(Shared, b)(handles[h]) + HandleHolds(Shared, b)(x)
      && Sum(r, HandleHolds(Weak, b)) ==
           Sum(handles, HandleHolds(Weak, b)) - HandleHolds(Weak, b)(handles[h]) + HandleHolds(Weak, b)(x)
    ensures HandleHolds(Shared, b)(handles[h]) <= Sum(handles, HandleHolds(Shared, b))
    ensures HandleHolds(Weak, b)(handles[h]) <= Sum(handles, HandleHolds(Weak, b))
  {
    SumUpdate(handles, h, x, HandleHolds(Shared, b));
    SumUpdate(handles, h, x, HandleHolds(Weak, b));
  }

  /** A block somebody raises a count of has parts of the needed kind. */
  lemma SourceHolds(s: State, t: nat, b: nat, part: Kind)
    requires Inv(s) && t < |s.threads| && b < |s.blocks|
    requires var st := s.threads[t];
      (st.IncShared? || st.LoadShared? || st.CasShared? || st.IncWeak?) && Sourced(s, st.goal, b, part)
    ensures 0 < s.blocks[b].weak && s.blocks[b].frees == 0
    ensures part.Shared? ==> 0 < s.blocks[b].shared
  {
    assert BlockOk(s, b);
    ThreadSums(s, t, s.threads[t], b);
    var g := s.threads[t].goal;
    if g.src != g.dst {
      HandleSums(s.handles, g.src, s.handles[g.src], b);
    }
  }

  /** The other threads do not notice a step on counts. */
  lemma KeepOthers(s: State, r: State, t: nat)
    requires Inv(s) && t < |s.threads| == |r.threads|
    requires r.handles == s.handles && |r.blocks| == |s.blocks| && r.threads == s.threads[t := r.threads[t]]
    requires StageOk(r, t)
    ensures forall q: nat :: q < |r.threads| ==> StageOk(r, q)
  {
    forall q: nat | q < |r.threads| ensures StageOk(r, q) {
      assert StageOk(s, q);
    }
  }

  /** A step of thread t on block c that accounts for every part it takes or gives. */
  lemma KeepTouch(s: State, t: nat, c: nat, block: Block, st: Stage)
    requires Inv(s) && t < |s.threads| && c < |s.blocks| && s.blocks[c].frees == 0
    requires StageOk(Enter(Touch(s, c, block), t, st), t)
    requires forall b: nat :: b < |s.blocks| && b != c ==> SameHoldings(s.threads[t], st, b)
    requires block.shared == s.blocks[c].shared - StageHolds(Shared, c)(s.threads[t]) + StageHolds(Shared, c)(st)
    requires block.weak == s.blocks[c].weak - StageHolds(Weak, c)(s.threads[t]) + StageHolds(Weak, c)(st)
    requires block.destructs + Sum(s.threads, AtDestruct(c)) - AtDestruct(c)(s.threads[t]) + AtDestruct(c)(st)
          == if block.shared == 0 then 1 else 0
    requires block.frees + Sum(s.threads, AtFree(c)) - AtFree(c)(s.threads[t]) + AtFree(c)(st)
          == if block.weak == 0 then 1 else 0
    ensures Inv(Enter(Touch(s, c, block), t, st))
  {
    var r := Enter(Touch(s, c, block), t, st);
    forall b: nat | b < |r.blocks| ensures BlockOk(r, b) {
      assert BlockOk(s, b);
      assert b == c || SameHoldings(s.threads[t], st, b);
      ThreadSums(s, t, st, b);
    }
    KeepOthers(s, r, t);
  }

  predicate SameHoldings(st: Stage, st': Stage, b: nat) {
    && StageHolds(Shared, b)(st) == StageHolds(Shared, b)(st')
    && StageHolds(Weak, b)(st) == StageHolds(Weak, b)(st')
    && AtDestruct(b)(st) == AtDestruct(b)(st')
    && AtFree(b)(st) == AtFree(b)(st')
  }

  lemma KeepIncShared(s: State, t: nat)
    requires Inv(s) && Enabled(s, Advance(t)) && s.threads[t].IncShared?
    ensures Inv(Apply(s, Advance(t)))
  {
    assert StageOk(s, t);
    var r := Apply(s, Advance(t));
    var c := s.threads[t].b;
    assert BlockOk(s, c);
    ThreadSums(s, t, s.threads[t], c);
    SourceHolds(s, t, c, Shared);
    KeepTouch(s, t, c, r.blocks[c], r.threads[t]);
  }

  lemma KeepLoadShared(s: State, t: nat)
    requires Inv(s) && Enabled(s, Advance(t)) && s.threads[t].LoadShared?
    ensures Inv(Apply(s, Advance(t)))
  {
    assert StageOk(s, t);
    var r := Apply(s, Advance(t));
    var c := s.threads[t].b;
    assert BlockOk(s, c);
    ThreadSums(s, t, s.threads[t], c);
    SourceHolds(s, t, c, Weak);
    KeepTouch(s, t, c, r.blocks[c], r.threads[t]);
  }

  /** The exchange of lock takes effect. */
  lemma KeepCasHit(s: State, t: nat, c: nat)
    requires Inv(s) && Enabled(s, Advance(t)) && s.threads[t].CasShared? && c == s.threads[t].b < |s.blocks|
    requires s.blocks[c].shared == s.threads[t].seen
    ensures Inv(Apply(s, Advance(t)))
  {
    var x := s.blocks[c];
    assert StageOk(s, t) && BlockOk(s, c);
    ThreadSums(s, t, s.threads[t], c);
    SourceHolds(s, t, c, Weak);
    KeepTouch(s, t, c, x.(shared := x.shared + 1), IncWeak(c, s.threads[t].goal));
  }

  lemma KeepCasShared(s: State, t: nat)
    requires Inv(s) && Enabled(s, Advance(t)) && s.threads[t].CasShared?
    ensures Inv(Apply(s, Advance(t)))
  {
    var c := s.threads[t].b;
    assert StageOk(s, t);
    if s.blocks[c].shared == s.threads[t].seen {
      KeepCasHit(s, t, c);
    } else {
      assert BlockOk(s, c);
      ThreadSums(s, t, s.threads[t], c);
      SourceHolds(s, t, c, Weak);
      KeepTouch(s, t, c, s.blocks[c], Seen(c, s.blocks[c].shared, s.threads[t].goal));
    }
  }

  /** Taking the weak part of what comes in, and nothing else. */
  lemma ReleaseHolds(c: nat, goal: Goal, b: nat)
    requires goal.incoming == To(c)
    ensures var st, st' := IncWeak(c, goal), Release(goal);
      && StageHolds(Shared, b)(st') == StageHolds(Shared, b)(st)
      && StageHolds(Weak, b)(st') == StageHolds(Weak, b)(st) + (if b == c then 1 else 0)
      && AtDestruct(b)(st') == AtDestruct(b)(st) == AtFree(b)(st') == AtFree(b)(st) == 0
  {
  }

  lemma KeepIncWeak(s: State, t: nat)
    requires Inv(s) && Enabled(s, Advance(t)) && s.threads[t].IncWeak?
    ensures Inv(Apply(s, Advance(t)))
  {
    var c, goal := s.threads[t].b, s.threads[t].goal;
    assert StageOk(s, t);
    var x := s.blocks[c];
    assert BlockOk(s, c);
    forall b: nat | b < |s.blocks| ensures b == c || SameHoldings(s.threads[t], Release(goal), b) {
      ReleaseHolds(c, goal, b);
    }
    ReleaseHolds(c, goal, c);
    SourceHolds(s, t, c, Weak);
    KeepTouch(s, t, c, x.(weak := x.weak + 1), Release(goal));
  }

  lemma KeepDecShared(s: State, t: nat)
    requires Inv(s) && Enabled(s, Advance(t)) && s.threads[t].DecShared?
    ensures Inv(Apply(s, Advance(t)))
  {
    assert StageOk(s, t);
    var r := Apply(s, Advance(t));
    var c := s.threads[t].b;
    assert BlockOk(s, c);
    ThreadSums(s, t, s.threads[t], c);
    KeepTouch(s, t, c, r.blocks[c], r.threads[t]);
  }

  lemma KeepDestruct(s: State, t: nat)
    requires Inv(s) && Enabled(s, Advance(t)) && s.threads[t].Destruct?
    ensures Inv(Apply(s, Advance(t)))
  {
    assert StageOk(s, t);
    var r := Apply(s, Advance(t));
    var c := s.threads[t].b;
    assert BlockOk(s, c);
    ThreadSums(s, t, s.threads[t], c);
    KeepTouch(s, t, c, r.blocks[c], r.threads[t]);
  }

  lemma KeepDecWeak(s: State, t: nat)
    requires Inv(s) && Enabled(s, Advance(t)) && s.threads[t].DecWeak?
    ensures Inv(Apply(s, Advance(t)))
  {
    assert StageOk(s, t);
    var r := Apply(s, Advance(t));
    var c := s.threads[t].b;
    assert BlockOk(s, c);
    ThreadSums(s, t, s.threads[t], c);
    KeepTouch(s, t, c, r.blocks[c], r.threads[t]);
  }

  lemma KeepFree(s: State, t: nat)
    requires Inv(s) && Enabled(s, Advance(t)) && s.threads[t].Free?
    ensures Inv(Apply(s, Advance(t)))
  {
    assert StageOk(s, t);
    var r := Apply(s, Advance(t));
    var c := s.threads[t].b;
    assert BlockOk(s, c);
    ThreadSums(s, t, s.threads[t], c);
    KeepTouch(s, t, c, r.blocks[c], r.threads[t]);
  }

  /** The parts held for `incoming` pass to dst. */
  lemma StoreCounts(s: State, t: nat, b: nat)
    requires Inv(s) && Enabled(s, Advance(t)) && s.threads[t].Store? && b < |s.blocks|
    ensures BlockOk(Apply(s, Advance(t)), b)
  {
    assert StageOk(s, t) && BlockOk(s, b);
    FetchesSame(s, t);
    var g := s.threads[t].goal;
    var cleared := s.handles[g.clear := Ptr(g.kind, Null)];
    var dst := if g.keep then Ptr(g.kind, g.incoming) else Absent;
    ThreadSums(s, t, Idle, b);
    HandleSums(s.handles, g.clear, Ptr(g.kind, Null), b);
    HandleSums(cleared, g.dst, dst, b);
  }

  /** Reading the source again gives the pointer whose counts were raised. */
  lemma FetchesSame(s: State, t: nat)
    requires Inv(s) && t < |s.threads| && !s.threads[t].Idle?
    ensures s.threads[t].goal.src < |s.handles| && Fetched(s, s.threads[t].goal) == s.threads[t].goal.incoming
  {
    assert StageOk(s, t);
  }

  lemma KeepStore(s: State, t: nat)
    requires Inv(s) && Enabled(s, Advance(t)) && s.threads[t].Store?
    ensures Inv(Apply(s, Advance(t)))
  {
    assert StageOk(s, t);
    FetchesSame(s, t);
    var r := Apply(s, Advance(t));
    forall b: nat | b < |r.blocks| ensures BlockOk(r, b) {
      StoreCounts(s, t, b);
    }
    forall q: nat | q < |r.threads| ensures StageOk(r, q) {
      assert StageOk(s, q);
    }
  }

  /** An operation under way can always go on. */
  lemma NeverStuck(s: State, t: nat)
    requires Inv(s) && t < |s.threads| && !s.threads[t].Idle?
    ensures Enabled(s, Advance(t))
  {
    assert StageOk(s, t);
  }

  lemma KeepAdvance(s: State, t: nat)
    requires Inv(s) && Enabled(s, Advance(t))
    ensures Inv(Apply(s, Advance(t)))
  {
    match s.threads[t]
    case IncShared(_, _) => KeepIncShared(s, t);
    case LoadShared(_, _) => KeepLoadShared(s, t);
    case CasShared(_, _, _) => KeepCasShared(s, t);
    case IncWeak(_, _) => KeepIncWeak(s, t);
    case DecShared(_, _) => KeepDecShared(s, t);
    case Destruct(_, _) => KeepDestruct(s, t);
    case DecWeak(_, _) => KeepDecWeak(s, t);
    case Free(_, _) => KeepFree(s, t);
    case Store(_) => KeepStore(s, t);
  }

  /** Thread t takes over just what the pointer objects it marks held. */
  ghost predicate TakesOver(s: State, r: State, t: nat, b: nat)
    requires t < |r.threads|
  {
    && Sum(r.handles, HandleHolds(Shared, b)) + StageHolds(Shared, b)(r.threads[t]) ==
         Sum(s.handles, HandleHolds(Shared, b))
    && Sum(r.handles, HandleHolds(Weak, b)) + StageHolds(Weak, b)(r.threads[t]) == Sum(s.handles, HandleHolds(Weak, b))
    && AtDestruct(b)(r.threads[t]) == AtFree(b)(r.threads[t]) == 0
  }

  lemma StartCounts(s: State, r: State, t: nat, b: nat)
    requires Inv(s) && Ready(s, t) && b < |s.blocks| && r.blocks == s.blocks
    requires |r.threads| == |s.threads| && r.threads == s.threads[t := r.threads[t]]
    requires TakesOver(s, r, t, b)
    ensures BlockOk(r, b)
  {
    assert BlockOk(s, b);
    ThreadSums(s, t, r.threads[t], b);
  }

  /** Starting an operation. */
  lemma KeepStart(s: State, r: State, t: nat)
    requires Inv(s) && Ready(s, t)
    requires r.blocks == s.blocks && |r.handles| == |s.handles| && r.fault == s.fault
    requires |r.threads| == |s.threads| && r.threads == s.threads[t := r.threads[t]]
    requires StageOk(r, t)
    requires forall b: nat :: b < |s.blocks| ==> TakesOver(s, r, t, b)
    requires forall h: nat :: h < |r.handles| && r.handles[h] != s.handles[h] ==>
      Writable(s, h) && r.handles[h] == InUse(t)
    ensures Inv(r)
  {
    forall b: nat | b < |r.blocks| ensures BlockOk(r, b) {
      StartCounts(s, r, t, b);
    }
    forall q: nat | q < |r.threads| && q != t ensures StageOk(r, q) {
      KeepStageStart(s, r, t, q);
    }
  }

  /** Operations under way do not notice that another one starts. */
  lemma KeepStageStart(s: State, r: State, t: nat, q: nat)
    requires Inv(s) && q < |s.threads| == |r.threads| && r.threads[q] == s.threads[q]
    requires |r.handles| == |s.handles| && r.blocks == s.blocks
    requires forall h: nat :: h < |s.handles| && r.handles[h] != s.handles[h] ==> Writable(s, h)
    ensures StageOk(r, q)
  {
    assert StageOk(s, q);
    if !s.threads[q].Idle? {
      var g := s.threads[q].goal;
      assert r.handles[g.dst] == s.handles[g.dst] && r.handles[g.clear] == s.handles[g.clear];
      if IsReading(s.threads[q], g.src) && g.src < |s.handles| {
        assert r.handles[g.src] == s.handles[g.src];
      }
    }
  }

  /** An operation that lets go holds what it has to give back and what it will store. */
  lemma GoalHolds(goal: Goal, b: nat)
    ensures forall part ::
      StageHolds(part, b)(Release(goal)) ==
        PointerHolds(part, goal.kind, goal.outgoing, b) + PointerHolds(part, goal.kind, goal.incoming, b)
    ensures AtDestruct(b)(Release(goal)) == AtFree(b)(Release(goal)) == 0
  {
  }

  lemma CopyTakesOver(s: State, t: nat, src: nat, dst: nat, kind: Kind, b: nat)
    requires Inv(s) && Enabled(s, Copy(t, src, dst, kind)) && b < |s.blocks|
    ensures TakesOver(s, Apply(s, Copy(t, src, dst, kind)), t, b)
  {
    HandleSums(s.handles, dst, InUse(t), b);
  }

  lemma KeepCopy(s: State, t: nat, src: nat, dst: nat, kind: Kind)
    requires Inv(s) && Enabled(s, Copy(t, src, dst, kind))
    ensures Inv(Apply(s, Copy(t, src, dst, kind)))
  {
    var r := Apply(s, Copy(t, src, dst, kind));
    forall b: nat | b < |s.blocks| ensures TakesOver(s, r, t, b) { CopyTakesOver(s, t, src, dst, kind, b); }
    KeepStart(s, r, t);
  }

  lemma MoveTakesOver(s: State, t: nat, src: nat, dst: nat, b: nat)
    requires Inv(s) && Enabled(s, Move(t, src, dst)) && b < |s.blocks|
    ensures TakesOver(s, Apply(s, Move(t, src, dst)), t, b)
  {
    HandleSums(s.handles, dst, InUse(t), b);
    HandleSums(s.handles[dst := InUse(t)], src, InUse(t), b);
    var goal := Goal(dst, s.handles[src].kind, true, Old(s.handles[dst]),
                     if src == dst then Null else s.handles[src].data, src, src, false);
    GoalHolds(goal, b);
    assert Apply(s, Move(t, src, dst)).threads[t] == Release(goal);
  }

  lemma KeepMove(s: State, t: nat, src: nat, dst: nat)
    requires Inv(s) && Enabled(s, Move(t, src, dst))
    ensures Inv(Apply(s, Move(t, src, dst)))
  {
    var r := Apply(s, Move(t, src, dst));
    forall b: nat | b < |s.blocks| ensures TakesOver(s, r, t, b) { MoveTakesOver(s, t, src, dst, b); }
    KeepStart(s, r, t);
  }

  lemma KeepLetGo(s: State, step: Step)
    requires Inv(s) && Enabled(s, step) && (step.Reset? || step.Destroy?)
    ensures Inv(Apply(s, step))
  {
    var r := Apply(s, step);
    forall b: nat | b < |s.blocks|
      ensures TakesOver(s, r, step.t, b)
    {
      HandleSums(s.handles, step.h, InUse(step.t), b);
    }
    KeepStart(s, r, step.t);
  }

  lemma KeepLock(s: State, t: nat, src: nat, dst: nat)
    requires Inv(s) && Enabled(s, Lock(t, src, dst))
    ensures Inv(Apply(s, Lock(t, src, dst)))
  {
    var r := Apply(s, Lock(t, src, dst));
    forall b: nat | b < |s.blocks|
      ensures TakesOver(s, r, t, b)
    {
      HandleSums(s.handles, dst, InUse(t), b);
    }
    KeepStart(s, r, t);
  }

  lemma KeepMake(s: State, step: Step)
    requires Inv(s) && Enabled(s, step) && (step.Make? || step.MakeNull?)
    ensures Inv(Apply(s, step))
  {
    var r := Apply(s, step);
    forall b: nat | b < |r.blocks| ensures BlockOk(r, b) {
      HandleSums(s.handles, step.h, r.handles[step.h], b);
      if b < |s.blocks| {
        assert BlockOk(s, b);
      } else {
        NobodyHolds(s);
      }
    }
    forall q: nat | q < |r.threads| ensures StageOk(r, q) {
      assert StageOk(s, q);
    }
  }

  /** Nobody holds a part of the block that is yet to be made. */
  lemma NobodyHolds(s: State)
    requires Inv(s)
    ensures var b := |s.blocks|;
      Parts(s, Shared, b) == Parts(s, Weak, b) == Sum(s.threads, AtDestruct(b)) == Sum(s.threads, AtFree(b)) == 0
  {
    var b := |s.blocks|;
    forall t | 0 <= t < |s.threads|
      ensures StageHolds(Shared, b)(s.threads[t]) == StageHolds(Weak, b)(s.threads[t]) == 0
      ensures AtDestruct(b)(s.threads[t]) == AtFree(b)(s.threads[t]) == 0
    {
      assert StageOk(s, t);
    }
    SumZero(s.handles, HandleHolds(Shared, b));
    SumZero(s.handles, HandleHolds(Weak, b));
    SumZero(s.threads, StageHolds(Shared, b));
    SumZero(s.threads, StageHolds(Weak, b));
    SumZero(s.threads, AtDestruct(b));
    SumZero(s.threads, AtFree(b));
  }

  lemma KeepStep(s: State, step: Step)
    requires Inv(s) && Enabled(s, step)
    ensures Inv(Apply(s, step))
  {
    match step
    case Make(_) => KeepMake(s, step);
    case MakeNull(_, _) => KeepMake(s, step);
    case Copy(t, src, dst, kind) => KeepCopy(s, t, src, dst, kind);
    case Move(t, src, dst) => KeepMove(s, t, src, dst);
    case Reset(_, _) => KeepLetGo(s, step);
    case Destroy(_, _) => KeepLetGo(s, step);
    case Lock(t, src, dst) => KeepLock(s, t, src, dst);
    case Advance(t) => KeepAdvance(s, t);
  }

  predicate Run(s: State, steps: seq<Step>)
    decreases |steps|
  {
    steps == [] || (Enabled(s, steps[0]) && Run(Apply(s, steps[0]), steps[1..]))
  }

  function Final(s: State, steps: seq<Step>): (r: State)
    requires Run(s, steps)
    decreases |steps|
  {
    if steps == [] then s else Final(Apply(s, steps[0]), steps[1..])
  }

  // ------------------------------------------------------------ main results

  lemma {:induction false} KeepRun(s: State, steps: seq<Step>)
    requires Inv(s) && Run(s, steps)
    ensures Inv(Final(s, steps))
    decreases |steps|
  {
    if steps != [] {
      KeepStep(s, steps[0]);
      KeepRun(Apply(s, steps[0]), steps[1..]);
    }
  }

  lemma InitInv(handles: nat, threads: nat)
    ensures Inv(Init(handles, threads))
  {
  }

  /** What the counts promise of a state. */
  ghost predicate Safe(s: State) {
    // no count was touched, no value destroyed and no block freed after the block was freed
    && !s.fault
    && forall b: nat :: b < |s.blocks| ==>
        && var x := s.blocks[b];
        // the counts are the parts held by pointer objects and operations under way
        && x.shared == Parts(s, Shared, b) && x.weak == Parts(s, Weak, b)
        // at most once each, and freeing comes after the last part of either kind
        && x.destructs <= 1 && x.frees <= 1
        && (x.destructs == 1 ==> x.shared == 0)
        && (x.frees == 1 ==> x.weak == 0 && x.destructs == 1 && x.shared == 0)
        // the value is destroyed, or about to be by exactly one thread, once its last shared part is gone
        && (x.shared == 0 <==> x.destructs + Sum(s.threads, AtDestruct(b)) == 1)
        && (x.weak == 0 <==> x.frees + Sum(s.threads, AtFree(b)) == 1)
  }

  /** Every interleaving of every operation on every set of pointer objects is safe. */
  lemma RunsAreSafe(handles: nat, threads: nat, steps: seq<Step>)
    requires Run(Init(handles, threads), steps)
    ensures Safe(Final(Init(handles, threads), steps))
  {
    InitInv(handles, threads);
    KeepRun(Init(handles, threads), steps);
    InvIsSafe(Final(Init(handles, threads), steps));
  }

  lemma InvIsSafe(s: State)
    requires Inv(s)
    ensures Safe(s)
  {
    forall b: nat | b < |s.blocks|
      ensures BlockOk(s, b)
      ensures s.blocks[b].weak == 0 ==> s.blocks[b].shared == 0 && Sum(s.threads, AtDestruct(b)) == 0
    {
      assert BlockOk(s, b);
      WeakCoversShared(s, b);
    }
  }

  /** Nothing holds a shared part, or is about to destroy the value, without a weak part
      somewhere: a block without weak parts is done with. */
  lemma WeakCoversShared(s: State, b: nat)
    requires Inv(s) && b < |s.blocks|
    ensures s.blocks[b].weak == 0 ==> s.blocks[b].shared == 0 && Sum(s.threads, AtDestruct(b)) == 0
  {
    assert BlockOk(s, b);
    if s.blocks[b].weak == 0 {
      forall h | 0 <= h < |s.handles| ensures HandleHolds(Shared, b)(s.handles[h]) == 0 {
        SumAt(s.handles, h, HandleHolds(Weak, b));
      }
      forall t | 0 <= t < |s.threads|
        ensures StageHolds(Shared, b)(s.threads[t]) == 0 && AtDestruct(b)(s.threads[t]) == 0
      {
        SumAt(s.threads, t, StageHolds(Weak, b));
        assert StageOk(s, t);
        if s.threads[t].IncWeak? && s.threads[t].b == b {
          SourceHolds(s, t, b, Weak);
        }
      }
      SumZero(s.handles, HandleHolds(Shared, b));
      SumZero(s.threads, StageHolds(Shared, b));
      SumZero(s.threads, AtDestruct(b));
    }
  }

  /** Once a block is freed no pointer object refers to it and no operation uses it. */
  lemma FreedIsUnreachable(s: State, b: nat)
    requires Inv(s) && b < |s.blocks| && s.blocks[b].frees == 1
    ensures forall h :: 0 <= h < |s.handles| && s.handles[h].Ptr? ==> s.handles[h].data != To(b)
    ensures forall t :: 0 <= t < |s.threads| && !s.threads[t].Idle? && !s.threads[t].Store? ==> s.threads[t].b != b
  {
    assert BlockOk(s, b);
    forall h | 0 <= h < |s.handles| && s.handles[h].Ptr? ensures s.handles[h].data != To(b) {
      SumAt(s.handles, h, HandleHolds(Weak, b));
    }
    forall t | 0 <= t < |s.threads| && !s.threads[t].Idle? && !s.threads[t].Store? ensures s.threads[t].b != b {
      SumAt(s.threads, t, StageHolds(Weak, b));
      SumAt(s.threads, t, AtFree(b));
      assert StageOk(s, t);
      var st := s.threads[t];
      if st.b == b && (st.IncShared? || st.LoadShared? || st.CasShared? || st.IncWeak?) {
        SourceHolds(s, t, b, Weak);
      }
    }
  }

  /** A shared count that reached zero stays there: lock never revives it. */
  lemma ZeroIsFinal(s: State, step: Step, b: nat)
    requires Inv(s) && Enabled(s, step) && b < |s.blocks| && s.blocks[b].shared == 0
    ensures b < |Apply(s, step).blocks| && Apply(s, step).blocks[b].shared == 0
  {
    if step.Advance? && s.threads[step.t].IncShared? && s.threads[step.t].b == b {
      assert StageOk(s, step.t);
      SourceHolds(s, step.t, b, Shared);
      assert false;
    }
    if step.Advance? && s.threads[step.t].DecShared? && s.threads[step.t].b == b {
      assert StageOk(s, step.t) && BlockOk(s, b);
      SumAt(s.threads, step.t, StageHolds(Shared, b));
      assert false;
    }
    if step.Advance? && s.threads[step.t].CasShared? {
      assert StageOk(s, step.t);
    }
  }

  lemma {:induction false} ZeroStaysZero(s: State, steps: seq<Step>, b: nat)
    requires Inv(s) && Run(s, steps) && b < |s.blocks| && s.blocks[b].shared == 0
    ensures b < |Final(s, steps).blocks| && Final(s, steps).blocks[b].shared == 0
    decreases |steps|
  {
    if steps != [] {
      ZeroIsFinal(s, steps[0], b);
      KeepStep(s, steps[0]);
      ZeroStaysZero(Apply(s, steps[0]), steps[1..], b);
    }
  }

  /** A lock that succeeds hands out a pointer to a value that is still there, and it
      stays there until that pointer lets go. */
  lemma LockedIsAlive(s: State, h: nat)
    requires Inv(s) && h < |s.handles| && s.handles[h].Ptr? && s.handles[h].kind.Shared? && s.handles[h].data.To?
    ensures s.handles[h].data.block < |s.blocks|
    ensures s.blocks[s.handles[h].data.block].destructs == 0 && s.blocks[s.handles[h].data.block].frees == 0
  {
    var b := s.handles[h].data.block;
    assert BlockOk(s, b);
    SumAt(s.handles, h, HandleHolds(Shared, b));
    SumAt(s.handles, h, HandleHolds(Weak, b));
  }

  // ------------------------------------------- what the operations deliver

  /** The rest of an operation of thread t, among whatever the others do: it is under
      way before every step and over behind the last. */
  predicate Completes(s: State, steps: seq<Step>, t: nat)
    requires Run(s, steps)
    decreases |steps|
  {
    t < |s.threads| &&
    if steps == [] then s.threads[t].Idle? else !s.threads[t].Idle? && Completes(Apply(s, steps[0]), steps[1..], t)
  }

  /** What the pointer objects hold when the goal is reached. */
  ghost predicate Reached(s: State, goal: Goal) {
    && goal.dst < |s.handles| && goal.clear < |s.handles|
    && s.handles[goal.dst] == (if goal.keep then Ptr(goal.kind, goal.incoming) else Absent)
    && (goal.clear != goal.dst ==> s.handles[goal.clear] == Ptr(goal.kind, Null))
  }

  predicate Locking(st: Stage) {
    st.LoadShared? || st.CasShared?
  }

  /** Until it stores, an operation keeps its goal; only a lock may give it up. */
  lemma GoalStays(s: State, step: Step, t: nat)
    requires Inv(s) && Enabled(s, step) && t < |s.threads| && !s.threads[t].Idle?
    ensures t < |Apply(s, step).threads|
    ensures step != Advance(t) ==> Apply(s, step).threads[t] == s.threads[t]
    ensures step == Advance(t) && s.threads[t].Store? ==>
      Apply(s, step).threads[t].Idle? && Reached(Apply(s, step), s.threads[t].goal)
    ensures step == Advance(t) && !s.threads[t].Store? && !Locking(s.threads[t]) ==>
      var st := Apply(s, step).threads[t];
      !st.Idle? && !Locking(st) && st.goal == s.threads[t].goal
  {
    assert StageOk(s, t);
    if step == Advance(t) && s.threads[t].Store? { FetchesSame(s, t); }
  }

  lemma {:induction false} GoalReached(s: State, steps: seq<Step>, t: nat)
    requires Inv(s) && Run(s, steps) && Completes(s, steps, t)
    requires t < |s.threads| && !s.threads[t].Idle? && !Locking(s.threads[t])
    ensures Reached(Final(s, steps), s.threads[t].goal)
    decreases |steps|
  {
    var r := Apply(s, steps[0]);
    GoalStays(s, steps[0], t);
    KeepStep(s, steps[0]);
    if r.threads[t].Idle? {
      assert steps[1..] == [];
    } else {
      GoalReached(r, steps[1..], t);
    }
  }

  /** A new shared_ptr refers to a value of its own, which it alone keeps alive. */
  lemma MakeDelivers(s: State, h: nat)
    requires Inv(s) && Enabled(s, Make(h))
    ensures var e, b := Apply(s, Make(h)), |s.blocks|;
      && |e.blocks| == b + 1 && e.handles[h] == Ptr(Shared, To(b))
      && Parts(e, Shared, b) == 1 && e.blocks[b].destructs == e.blocks[b].frees == 0
      && (forall g :: 0 <= g < |e.handles| && g != h && e.handles[g].Ptr? ==> e.handles[g].data != To(b))
      && forall c :: 0 <= c < b ==> e.blocks[c] == s.blocks[c]
  {
    KeepMake(s, Make(h));
    assert BlockOk(Apply(s, Make(h)), |s.blocks|);
  }

  /** A copy leaves dst with what src held when it started. */
  lemma CopyDelivers(s: State, steps: seq<Step>, t: nat, src: nat, dst: nat, kind: Kind)
    requires Inv(s) && Enabled(s, Copy(t, src, dst, kind))
    requires var r := Apply(s, Copy(t, src, dst, kind)); Run(r, steps) && Completes(r, steps, t)
    ensures var e := Final(Apply(s, Copy(t, src, dst, kind)), steps);
      dst < |e.handles| && e.handles[dst] == Ptr(kind, s.handles[src].data)
  {
    KeepStep(s, Copy(t, src, dst, kind));
    GoalReached(Apply(s, Copy(t, src, dst, kind)), steps, t);
  }

  /** A move leaves src null and dst with what src held; moving to itself drops it. */
  lemma MoveDelivers(s: State, steps: seq<Step>, t: nat, src: nat, dst: nat)
    requires Inv(s) && Enabled(s, Move(t, src, dst))
    requires var r := Apply(s, Move(t, src, dst)); Run(r, steps) && Completes(r, steps, t)
    ensures var e, kind := Final(Apply(s, Move(t, src, dst)), steps), s.handles[src].kind;
      && src < |e.handles| && dst < |e.handles| && e.handles[src] == Ptr(kind, Null)
      && (src != dst ==> e.handles[dst] == Ptr(kind, s.handles[src].data))
  {
    KeepStep(s, Move(t, src, dst));
    GoalReached(Apply(s, Move(t, src, dst)), steps, t);
  }

  /** A reset leaves null behind, and a destructor no pointer object at all. */
  lemma LetGoDelivers(s: State, steps: seq<Step>, op: Step)
    requires Inv(s) && Enabled(s, op) && (op.Reset? || op.Destroy?)
    requires Run(Apply(s, op), steps) && Completes(Apply(s, op), steps, op.t)
    ensures var e := Final(Apply(s, op), steps);
      op.h < |e.handles| && e.handles[op.h] == if op.Reset? then Ptr(s.handles[op.h].kind, Null) else Absent
  {
    KeepStep(s, op);
    GoalReached(Apply(s, op), steps, op.t);
  }

  /** The lock of thread t looks at block b and finds that no shared part is left. */
  predicate FindsGone(s: State, step: Step, t: nat, b: nat)
    requires Enabled(s, step)
  {
    step == Advance(t) && Locking(s.threads[t]) && b < |s.blocks| && s.blocks[b].shared == 0
  }

  predicate FoundGone(s: State, steps: seq<Step>, t: nat, b: nat)
    requires Run(s, steps)
    decreases |steps|
  {
    steps != [] && (FindsGone(s, steps[0], t, b) || FoundGone(Apply(s, steps[0]), steps[1..], t, b))
  }

  /** A lock gives up exactly where it finds no shared part left. */
  lemma LockGoesOn(s: State, t: nat)
    requires Inv(s) && Enabled(s, Advance(t)) && Locking(s.threads[t])
    ensures var st, b, g := Apply(s, Advance(t)).threads[t], s.threads[t].b, s.threads[t].goal;
      if s.blocks[b].shared == 0 then st == Store(g.(incoming := Null, again := false))
      else st == IncWeak(b, g) || (st.CasShared? && st.b == b && st.goal == g)
  {
    assert StageOk(s, t) && BlockOk(s, s.threads[t].b);
  }

  lemma {:induction false} NotGone(s: State, steps: seq<Step>, t: nat, b: nat)
    requires Inv(s) && Run(s, steps) && Completes(s, steps, t)
    requires t < |s.threads| && !Locking(s.threads[t])
    ensures !FoundGone(s, steps, t, b)
    decreases |steps|
  {
    if steps != [] {
      GoalStays(s, steps[0], t);
      KeepStep(s, steps[0]);
      NotGone(Apply(s, steps[0]), steps[1..], t, b);
    }
  }

  lemma {:induction false} LockReached(s: State, steps: seq<Step>, t: nat)
    requires Inv(s) && Run(s, steps) && Completes(s, steps, t) && t < |s.threads| && Locking(s.threads[t])
    ensures var e, g := Final(s, steps), s.threads[t].goal;
      && g.dst < |e.handles|
      && e.handles[g.dst] == Ptr(Shared, if FoundGone(s, steps, t, s.threads[t].b) then Null else To(s.threads[t].b))
    decreases |steps|
  {
    var r := Apply(s, steps[0]);
    assert StageOk(s, t);
    GoalStays(s, steps[0], t);
    KeepStep(s, steps[0]);
    if steps[0] == Advance(t) { LockGoesOn(s, t); }
    if Locking(r.threads[t]) {
      LockReached(r, steps[1..], t);
    } else {
      GoalReached(r, steps[1..], t);
      NotGone(r, steps[1..], t, s.threads[t].b);
    }
  }

  /** A lock delivers what its weak_ptr refers to, unless at one of its looks no shared
      part was left; so it delivers whenever the value is still there at its end. */
  lemma LockDelivers(s: State, steps: seq<Step>, t: nat, src: nat, dst: nat)
    requires Inv(s) && Enabled(s, Lock(t, src, dst))
    requires var r := Apply(s, Lock(t, src, dst)); Run(r, steps) && Completes(r, steps, t)
    ensures var r := Apply(s, Lock(t, src, dst));
      var e, p := Final(r, steps), s.handles[src].data;
      && dst < |e.handles|
      && e.handles[dst] == Ptr(Shared, if p.To? && FoundGone(r, steps, t, p.block) then Null else p)
      && (p.To? ==> p.block < |e.blocks| && (0 < e.blocks[p.block].shared ==> e.handles[dst] == Ptr(Shared, p)))
  {
    var r := Apply(s, Lock(t, src, dst));
    KeepStep(s, Lock(t, src, dst));
    if s.handles[src].data.Null? {
      GoalReached(r, steps, t);
    } else {
      LockReached(r, steps, t);
      GoneForGood(r, steps, t, s.handles[src].data.block);
    }
  }

  lemma {:induction false} GoneForGood(s: State, steps: seq<Step>, t: nat, b: nat)
    requires Inv(s) && Run(s, steps) && b < |s.blocks|
    ensures b < |Final(s, steps).blocks|
    ensures FoundGone(s, steps, t, b) ==> Final(s, steps).blocks[b].shared == 0
    decreases |steps|
  {
    if steps != [] {
      KeepStep(s, steps[0]);
      GoneForGood(Apply(s, steps[0]), steps[1..], t, b);
      if FindsGone(s, steps[0], t, b) { ZeroStaysZero(s, steps, b); }
    }
  }

  /** How many steps an operation needs at most if nobody interferes. */
  function StepsLeft(s: State, t: nat): (n: nat)
    requires t < |s.threads|
  {
    match s.threads[t]
    case Idle => 0
    case Store(_) => 1
    case Free(_, _) => 2
    case DecWeak(_, _) => 3
    case Destruct(_, _) => 4
    case DecShared(_, _) => 5
    case IncWeak(_, _) => 6
    case IncShared(_, _) => 7
    case CasShared(b, seen, _) => if b < |s.blocks| && s.blocks[b].shared == seen then 7 else 8
    case LoadShared(_, _) => 8
  }

  function Alone(t: nat, n: nat): (steps: seq<Step>) {
    if n == 0 then [] else [Advance(t)] + Alone(t, n - 1)
  }

  /** Every operation ends within eight steps of its thread if no other thread takes one,
      from wherever it stands: each failed attempt of a lock brings it up to date. */
  lemma {:induction false} EndsAlone(s: State, t: nat)
    requires Inv(s) && t < |s.threads|
    ensures exists n: nat :: n <= StepsLeft(s, t) <= 8 && Run(s, Alone(t, n)) && Completes(s, Alone(t, n), t)
    decreases StepsLeft(s, t)
  {
    if s.threads[t].Idle? {
      assert Run(s, Alone(t, 0)) && Completes(s, Alone(t, 0), t);
    } else {
      NeverStuck(s, t);
      var r := Apply(s, Advance(t));
      KeepStep(s, Advance(t));
      EndsAlone(r, t);
      var n: nat :| n <= StepsLeft(r, t) <= 8 && Run(r, Alone(t, n)) && Completes(r, Alone(t, n), t);
      assert Alone(t, n + 1)[1..] == Alone(t, n);
    }
  }

  /** With every thread idle: a value is gone exactly if no shared_ptr refers to it,
      and its block exactly if no pointer object does. */
  lemma Quiescent(s: State, b: nat)
    requires Inv(s) && b < |s.blocks|
    requires forall t :: 0 <= t < |s.threads| ==> s.threads[t].Idle?
    ensures s.blocks[b].destructs == 1 <==>
      forall h :: 0 <= h < |s.handles| ==> s.handles[h] != Ptr(Shared, To(b))
    ensures s.blocks[b].frees == 1 <==>
      forall h :: 0 <= h < |s.handles| ==> s.handles[h] != Ptr(Shared, To(b)) && s.handles[h] != Ptr(Weak, To(b))
  {
    assert BlockOk(s, b);
    SumZero(s.threads, StageHolds(Shared, b));
    SumZero(s.threads, StageHolds(Weak, b));
    SumZero(s.threads, AtDestruct(b));
    SumZero(s.threads, AtFree(b));
    forall h | 0 <= h < |s.handles|
      ensures HandleHolds(Shared, b)(s.handles[h]) <= s.blocks[b].shared
      ensures HandleHolds(Weak, b)(s.handles[h]) <= s.blocks[b].weak
    {
      SumAt(s.handles, h, HandleHolds(Shared, b));
      SumAt(s.handles, h, HandleHolds(Weak, b));
    }
    if forall h :: 0 <= h < |s.handles| ==> s.handles[h] != Ptr(Shared, To(b)) {
      SumZero(s.handles, HandleHolds(Shared, b));
    }
    if forall h :: 0 <= h < |s.handles| ==> s.handles[h] != Ptr(Shared, To(b)) && s.handles[h] != Ptr(Weak, To(b)) {
      SumZero(s.handles, HandleHolds(Weak, b));
    }
  }
}
