// A bounded buffer: a ring buffer behind a mutex, with one semaphore that counts free places and one that counts
// elements. Any number of threads push and pop at will; each program step is atomic.
module BoundedBuffer {
  import opened Totals
  import opened Rings

  // What a thread is doing; each name stands for the statement it will execute next.
  datatype Pc =
    | Outside
    | PushAcquire(val: int)   // sem_wait(capacity)
    | PushLock(val: int)      // pthread_mutex_lock
    | PushInsert(val: int)    // rb_push
    | PushUnlock              // pthread_mutex_unlock
    | PushPost                // sem_post(numElements)
    | PopAcquire              // sem_wait(numElements)
    | PopLock                 // pthread_mutex_lock
    | PopRemove               // rb_pop
    | PopUnlock(val: int)     // pthread_mutex_unlock
    | PopPost(val: int)       // sem_post(capacity)

  // The last four are history variables: the values inserted into and removed from the ring, in order, and the values
  // that pushes were called with and that pops have returned.
  datatype State = State(ring: Ring, mtx: nat, numElements: nat, capacity: nat, threads: seq<Pc>,
                         pushed: seq<int>, popped: seq<int>, called: seq<int>, returned: seq<int>)

  datatype Move = StartPush(thread: nat, val: int) | StartPop(thread: nat) | Advance(thread: nat)

  // A blocked thread, and a thread that is outside, cannot advance.
  predicate CanAdvance(s: State, i: nat) {
    i < |s.threads| &&
    match s.threads[i]
    case Outside => false
    case PushAcquire(_) => s.capacity > 0
    case PopAcquire => s.numElements > 0
    case PushLock(_) => s.mtx > 0
    case PopLock => s.mtx > 0
    case _ => true
  }

  predicate Enabled(s: State, m: Move) {
    m.thread < |s.threads| &&
    match m
    case Advance(i) => CanAdvance(s, i)
    case _ => s.threads[m.thread] == Outside
  }

  // The two assertions of the ring buffer.
  predicate RingAllows(s: State, m: Move) {
    m.Advance? && m.thread < |s.threads| ==>
      && (s.threads[m.thread].PushInsert? ==> ValidRing(s.ring) && s.ring.length < |s.ring.buffer|)
      && (s.threads[m.thread] == PopRemove ==> ValidRing(s.ring) && s.ring.length > 0)
  }

  function Moved(s: State, m: Move): Pc
    requires Enabled(s, m) && RingAllows(s, m)
  {
    match m
    case StartPush(_, val) => PushAcquire(val)
    case StartPop(_) => PopAcquire
    case Advance(i) =>
      match s.threads[i]
      case Outside => Outside
      case PushAcquire(val) => PushLock(val)
      case PushLock(val) => PushInsert(val)
      case PushInsert(_) => PushUnlock
      case PushUnlock => PushPost
      case PushPost => Outside
      case PopAcquire => PopLock
      case PopLock => PopRemove
      case PopRemove => PopUnlock(PopRing(s.ring).0)
      case PopUnlock(val) => PopPost(val)
      case PopPost(_) => Outside
  }

  function Step(s: State, m: Move): State
    requires Enabled(s, m) && RingAllows(s, m)
  {
    var pc := s.threads[m.thread];
    var s1 := s.(threads := s.threads[m.thread := Moved(s, m)]);
    if m.StartPush? then s1.(called := s.called + [m.val])
    else if m.StartPop? then s1
    else
      match pc
      case Outside => s1
      case PushAcquire(_) => s1.(capacity := s.capacity - 1)
      case PopAcquire => s1.(numElements := s.numElements - 1)
      case PushLock(_) => s1.(mtx := s.mtx - 1)
      case PopLock => s1.(mtx := s.mtx - 1)
      case PushInsert(val) => s1.(ring := PushRing(s.ring, val), pushed := s.pushed + [val])
      case PopRemove => s1.(ring := PopRing(s.ring).1, popped := s.popped + [PopRing(s.ring).0])
      case PushUnlock => s1.(mtx := s.mtx + 1)
      case PopUnlock(_) => s1.(mtx := s.mtx + 1)
      case PushPost => s1.(numElements := s.numElements + 1)
      case PopPost(val) => s1.(capacity := s.capacity + 1, returned := s.returned + [val])
  }

  predicate IsStart(s: State, size: nat) {
    && |s.ring.buffer| == size && s.ring == NewRing(s.ring.buffer)
    && s.mtx == 1 && s.numElements == 0 && s.capacity == size
    && s.pushed == s.popped == s.called == s.returned == []
    && forall i :: 0 <= i < |s.threads| ==> s.threads[i] == Outside
  }

  // ------------------------------------------------------------------------------------------ the invariant

  function InMutex(pc: Pc): int {
    if pc.PushInsert? || pc == PushUnlock || pc == PopRemove || pc.PopUnlock? then 1 else 0
  }

  // Has reserved a place, not yet filled it.
  function PushReserved(pc: Pc): int {
    if pc.PushLock? || pc.PushInsert? then 1 else 0
  }

  // Has filled a place, not yet announced it.
  function PushUnannounced(pc: Pc): int {
    if pc == PushUnlock || pc == PushPost then 1 else 0
  }

  function PopReserved(pc: Pc): int {
    if pc == PopLock || pc == PopRemove then 1 else 0
  }

  function PopUnannounced(pc: Pc): int {
    if pc.PopUnlock? || pc.PopPost? then 1 else 0
  }

  // A thread that still has to push the value, and one that has popped it and not yet returned it.
  function WillPush(val: int): Pc -> int {
    (pc: Pc) => if (pc.PushAcquire? || pc.PushLock? || pc.PushInsert?) && pc.val == val then 1 else 0
  }

  function HasPopped(val: int): Pc -> int {
    (pc: Pc) => if (pc.PopUnlock? || pc.PopPost?) && pc.val == val then 1 else 0
  }

  // Every value a push was called with is in the ring once or still in hand, and every value taken out of the ring has
  // been returned once or is still in hand.
  ghost predicate Conserves(s: State, val: int) {
    && multiset(s.called)[val] == multiset(s.pushed)[val] + Sum(WillPush(val), s.threads)
    && multiset(s.popped)[val] == multiset(s.returned)[val] + Sum(HasPopped(val), s.threads)
  }

  ghost predicate Inv(s: State, size: nat) {
    && ValidRing(s.ring) && |s.ring.buffer| == size
    && s.mtx + Sum(InMutex, s.threads) == 1
    && s.ring.length == s.numElements + Sum(PushUnannounced, s.threads) + Sum(PopReserved, s.threads)
    && size - s.ring.length == s.capacity + Sum(PushReserved, s.threads) + Sum(PopUnannounced, s.threads)
    && s.popped + Contents(s.ring) == s.pushed
    && forall val :: Conserves(s, val)
  }

  lemma {:induction false} SumOfZeros(f: Pc -> int, threads: seq<Pc>)
    requires forall pc :: pc in threads ==> f(pc) == 0
    ensures Sum(f, threads) == 0
  {
    if threads != [] { SumOfZeros(f, threads[1..]); }
  }

  lemma StartInv(s: State, size: nat)
    requires IsStart(s, size)
    ensures Inv(s, size)
  {
    SumOfZeros(InMutex, s.threads);
    SumOfZeros(PushReserved, s.threads);
    SumOfZeros(PushUnannounced, s.threads);
    SumOfZeros(PopReserved, s.threads);
    SumOfZeros(PopUnannounced, s.threads);
    forall val
      ensures Conserves(s, val)
    {
      SumOfZeros(WillPush(val), s.threads);
      SumOfZeros(HasPopped(val), s.threads);
    }
  }

  lemma CountsNonNegative(s: State)
    ensures 0 <= Sum(PushReserved, s.threads) && 0 <= Sum(PushUnannounced, s.threads)
    ensures 0 <= Sum(PopReserved, s.threads) && 0 <= Sum(PopUnannounced, s.threads)
  {
    SumNonNegative(PushReserved, s.threads);
    SumNonNegative(PushUnannounced, s.threads);
    SumNonNegative(PopReserved, s.threads);
    SumNonNegative(PopUnannounced, s.threads);
  }

  // The assertions inside the ring buffer never fire.
  lemma AssertionsHold(s: State, size: nat, m: Move)
    requires Inv(s, size)
    ensures RingAllows(s, m)
  {
    CountsNonNegative(s);
    if m.Advance? && m.thread < |s.threads| {
      SumAtLeast(PushReserved, s.threads, m.thread);
      SumAtLeast(PopReserved, s.threads, m.thread);
    }
  }

  lemma StepKeepsMutex(s: State, size: nat, m: Move)
    requires Inv(s, size) && Enabled(s, m) && RingAllows(s, m)
    ensures Step(s, m).mtx + Sum(InMutex, Step(s, m).threads) == 1
  {
    SumUpdate(InMutex, s.threads, m.thread, Moved(s, m));
  }

  lemma StepKeepsElements(s: State, size: nat, m: Move)
    requires Inv(s, size) && Enabled(s, m) && RingAllows(s, m)
    ensures var s' := Step(s, m);
            s'.ring.length == s'.numElements + Sum(PushUnannounced, s'.threads) + Sum(PopReserved, s'.threads)
  {
    SumUpdate(PushUnannounced, s.threads, m.thread, Moved(s, m));
    SumUpdate(PopReserved, s.threads, m.thread, Moved(s, m));
  }

  lemma StepKeepsPlaces(s: State, size: nat, m: Move)
    requires Inv(s, size) && Enabled(s, m) && RingAllows(s, m)
    ensures var s' := Step(s, m);
            size - s'.ring.length == s'.capacity + Sum(PushReserved, s'.threads) + Sum(PopUnannounced, s'.threads)
  {
    SumUpdate(PushReserved, s.threads, m.thread, Moved(s, m));
    SumUpdate(PopUnannounced, s.threads, m.thread, Moved(s, m));
  }

  lemma StepKeepsOrder(s: State, size: nat, m: Move)
    requires Inv(s, size) && Enabled(s, m) && RingAllows(s, m)
    ensures var s' := Step(s, m);
            ValidRing(s'.ring) && |s'.ring.buffer| == size && s'.popped + Contents(s'.ring) == s'.pushed
  {
    if m.Advance? && s.threads[m.thread].PushInsert? {
      PushAppends(s.ring, s.threads[m.thread].val);
    } else if m.Advance? && s.threads[m.thread] == PopRemove {
      PopRemovesFirst(s.ring);
    }
  }

  lemma OneMoreCounts(xs: seq<int>, x: int, val: int)
    ensures multiset(xs + [x])[val] == multiset(xs)[val] + if x == val then 1 else 0
  {
  }

  predicate IsPushing(pc: Pc) {
    pc.PushAcquire? || pc.PushLock? || pc.PushInsert?
  }

  predicate IsReturning(pc: Pc) {
    pc.PopUnlock? || pc.PopPost?
  }

  // How a step of one thread hands a value on: from the call to the thread, on within it, and into the ring.
  predicate HandsIn(pc: Pc, pc': Pc, called: seq<int>, called': seq<int>, pushed: seq<int>, pushed': seq<int>) {
    || (!IsPushing(pc) && pc'.PushAcquire? && called' == called + [pc'.val] && pushed' == pushed)
    || (IsPushing(pc) && IsPushing(pc') && pc'.val == pc.val && called' == called && pushed' == pushed)
    || (pc.PushInsert? && !IsPushing(pc') && called' == called && pushed' == pushed + [pc.val])
    || (!IsPushing(pc) && !IsPushing(pc') && called' == called && pushed' == pushed)
  }

  // And out of it: from the ring to the thread, on within it, and to the caller.
  predicate HandsOut(pc: Pc, pc': Pc, popped: seq<int>, popped': seq<int>, returned: seq<int>, returned': seq<int>) {
    || (!IsReturning(pc) && pc'.PopUnlock? && popped' == popped + [pc'.val] && returned' == returned)
    || (IsReturning(pc) && IsReturning(pc') && pc'.val == pc.val && popped' == popped && returned' == returned)
    || (pc.PopPost? && !IsReturning(pc') && popped' == popped && returned' == returned + [pc.val])
    || (!IsReturning(pc) && !IsReturning(pc') && popped' == popped && returned' == returned)
  }

  lemma StepHandsOn(s: State, m: Move)
    requires Enabled(s, m) && RingAllows(s, m)
    ensures var (s', pc, pc') := (Step(s, m), s.threads[m.thread], Moved(s, m));
            && s'.threads == s.threads[m.thread := pc']
            && HandsIn(pc, pc', s.called, s'.called, s.pushed, s'.pushed)
            && HandsOut(pc, pc', s.popped, s'.popped, s.returned, s'.returned)
  {
  }

  lemma HandedInIsBalanced(pc: Pc, pc': Pc, called: seq<int>, called': seq<int>, pushed: seq<int>, pushed': seq<int>,
                           val: int)
    requires HandsIn(pc, pc', called, called', pushed, pushed')
    ensures multiset(called')[val] - multiset(called)[val] ==
            multiset(pushed')[val] - multiset(pushed)[val] + WillPush(val)(pc') - WillPush(val)(pc)
  {
    if pc'.PushAcquire? { OneMoreCounts(called, pc'.val, val); }
    if pc.PushInsert? { OneMoreCounts(pushed, pc.val, val); }
  }

  lemma HandedOutIsBalanced(pc: Pc, pc': Pc, popped: seq<int>, popped': seq<int>, returned: seq<int>,
                            returned': seq<int>, val: int)
    requires HandsOut(pc, pc', popped, popped', returned, returned')
    ensures multiset(popped')[val] - multiset(popped)[val] ==
            multiset(returned')[val] - multiset(returned)[val] + HasPopped(val)(pc') - HasPopped(val)(pc)
  {
    if pc'.PopUnlock? { OneMoreCounts(popped, pc'.val, val); }
    if pc.PopPost? { OneMoreCounts(returned, pc.val, val); }
  }

  lemma StepConserves(s: State, m: Move, val: int)
    requires Enabled(s, m) && RingAllows(s, m) && Conserves(s, val)
    ensures Conserves(Step(s, m), val)
  {
    var s', pc, pc' := Step(s, m), s.threads[m.thread], Moved(s, m);
    StepHandsOn(s, m);
    HandedInIsBalanced(pc, pc', s.called, s'.called, s.pushed, s'.pushed, val);
    HandedOutIsBalanced(pc, pc', s.popped, s'.popped, s.returned, s'.returned, val);
    SumUpdate(WillPush(val), s.threads, m.thread, pc');
    SumUpdate(HasPopped(val), s.threads, m.thread, pc');
  }

  lemma StepKeepsInv(s: State, size: nat, m: Move)
    requires Inv(s, size) && Enabled(s, m)
    ensures RingAllows(s, m) && Inv(Step(s, m), size)
  {
    AssertionsHold(s, size, m);
    StepKeepsMutex(s, size, m);
    StepKeepsElements(s, size, m);
    StepKeepsPlaces(s, size, m);
    StepKeepsOrder(s, size, m);
    forall val
      ensures Conserves(Step(s, m), val)
    {
      StepConserves(s, m, val);
    }
  }

  // ------------------------------------------------------------------------------------------ consequences

  // Between pthread_mutex_lock and pthread_mutex_unlock there is at most one thread.
  lemma OneThreadInTheRing(s: State, size: nat, i: nat, j: nat)
    requires Inv(s, size) && i < j < |s.threads|
    ensures InMutex(s.threads[i]) + InMutex(s.threads[j]) <= 1
  {
    SumAtLeastTwo(InMutex, s.threads, i, j);
  }

  // The thread holds a place or an element that neither semaphore counts.
  function InFlight(pc: Pc): int {
    PushReserved(pc) + PushUnannounced(pc) + PopReserved(pc) + PopUnannounced(pc)
  }

  lemma {:induction false} InFlightIsTheSum(threads: seq<Pc>)
    ensures Sum(InFlight, threads) ==
            Sum(PushReserved, threads) + Sum(PushUnannounced, threads) + Sum(PopReserved, threads) +
            Sum(PopUnannounced, threads)
  {
    if threads != [] { InFlightIsTheSum(threads[1..]); }
  }

  // The two semaphores and the threads in flight always add up to the size.
  lemma SemaphoresAddUp(s: State, size: nat)
    requires Inv(s, size)
    ensures s.numElements + s.capacity + Sum(InFlight, s.threads) == size
  {
    InFlightIsTheSum(s.threads);
  }

  // When nobody is inside an operation, every value that a push was called with has gone into the ring, and every
  // value taken out of it has been returned.
  lemma NothingInHand(s: State, size: nat)
    requires Inv(s, size) && forall i :: 0 <= i < |s.threads| ==> s.threads[i] == Outside
    ensures multiset(s.called) == multiset(s.pushed) == multiset(s.returned) + multiset(Contents(s.ring))
  {
    forall val
      ensures multiset(s.called)[val] == multiset(s.pushed)[val]
      ensures multiset(s.popped)[val] == multiset(s.returned)[val]
    {
      assert Conserves(s, val);
      SumOfZeros(WillPush(val), s.threads);
      SumOfZeros(HasPopped(val), s.threads);
    }
  }

  // If nobody inside an operation can advance, then they all wait to push into a full buffer, or all wait to pop
  // from an empty one. In particular a waiting pusher and a waiting popper never block each other.
  lemma StuckMeansFullOrEmpty(s: State, size: nat)
    requires Inv(s, size) && size > 0
    requires forall i: nat :: !CanAdvance(s, i)
    ensures || ((forall i :: 0 <= i < |s.threads| ==> s.threads[i] == Outside || s.threads[i].PushAcquire?)
                && (s.ring.length < size ==> forall i :: 0 <= i < |s.threads| ==> s.threads[i] == Outside))
            || ((forall i :: 0 <= i < |s.threads| ==> s.threads[i] == Outside || s.threads[i] == PopAcquire)
                && s.ring.length == 0)
  {
    if Sum(InMutex, s.threads) > 0 {
      var i := SumWitness(InMutex, s.threads);
      assert CanAdvance(s, i);
    }
    forall i: nat | i < |s.threads|
      ensures s.threads[i] == Outside || s.threads[i].PushAcquire? || s.threads[i] == PopAcquire
    {
      assert !CanAdvance(s, i);
    }
    SumOfZeros(PushReserved, s.threads);
    SumOfZeros(PushUnannounced, s.threads);
    SumOfZeros(PopReserved, s.threads);
    SumOfZeros(PopUnannounced, s.threads);
    forall i: nat | i < |s.threads|
      ensures s.threads[i].PushAcquire? ==> s.ring.length == size
      ensures s.threads[i] == PopAcquire ==> s.ring.length == 0
    {
      assert !CanAdvance(s, i);
    }
  }

  // ------------------------------------------------------------------------------------------ runs

  ghost predicate CanRun(s: State, size: nat, moves: seq<Move>)
    requires Inv(s, size)
    decreases |moves|
  {
    moves != [] ==>
      Enabled(s, moves[0]) && (StepKeepsInv(s, size, moves[0]); CanRun(Step(s, moves[0]), size, moves[1..]))
  }

  ghost function Run(s: State, size: nat, moves: seq<Move>): State
    requires Inv(s, size) && CanRun(s, size, moves)
    decreases |moves|
  {
    if moves == [] then s else
      StepKeepsInv(s, size, moves[0]);
      Run(Step(s, moves[0]), size, moves[1..])
  }

  // In every interleaving of any number of producers and consumers the values come out in the order in which they
  // went in, none lost and none twice, and the next operation on the ring meets its assertion.
  lemma {:induction false} FirstInFirstOut(s: State, size: nat, moves: seq<Move>)
    requires Inv(s, size) && CanRun(s, size, moves)
    ensures var t := Run(s, size, moves);
            && ValidRing(t.ring) && t.popped + Contents(t.ring) == t.pushed
            && t.numElements + t.capacity + Sum(InFlight, t.threads) == size
            && s.pushed <= t.pushed && s.popped <= t.popped
            && (forall val :: Conserves(t, val))
            && forall m :: RingAllows(t, m)
    decreases |moves|
  {
    if moves == [] {
      SemaphoresAddUp(s, size);
      forall m
        ensures RingAllows(s, m)
      {
        AssertionsHold(s, size, m);
      }
    } else {
      StepKeepsInv(s, size, moves[0]);
      FirstInFirstOut(Step(s, moves[0]), size, moves[1..]);
    }
  }

  // -------------------------------------------------------------------------------- the program itself

  class Buffer {
    const rb: RingBuffer
    var mtx: nat
    var numElements: nat
    var capacity: nat
    var threads: seq<Pc>
    ghost var pushed: seq<int>
    ghost var popped: seq<int>
    ghost var called: seq<int>
    ghost var returned: seq<int>

    ghost function Value(): State
      reads this, rb, rb.buffer
    {
      State(rb.Value(), mtx, numElements, capacity, threads, pushed, popped, called, returned)
    }

    constructor (size: nat, count: nat)
      ensures IsStart(Value(), size) && |threads| == count && fresh(rb) && fresh(rb.buffer)
    {
      rb := new RingBuffer(size);
      mtx := 1;
      capacity := size;
      numElements := 0;
      threads := seq(count, i => Outside);
      pushed, popped, called, returned := [], [], [], [];
    }

    method Start(i: nat, pc: Pc)
      requires i < |threads| && threads[i] == Outside && (pc.PushAcquire? || pc == PopAcquire)
      modifies this
      ensures Value() == Step(old(Value()), if pc == PopAcquire then StartPop(i) else StartPush(i, pc.val))
    {
      threads := threads[i := pc];
      if pc.PushAcquire? { called := called + [pc.val]; }
    }

    // One statement of buf_push.
    method Push(ghost size: nat, i: nat)
      requires Inv(Value(), size) && CanAdvance(Value(), i)
      requires var pc := threads[i];
               pc.PushAcquire? || pc.PushLock? || pc.PushInsert? || pc == PushUnlock || pc == PushPost
      modifies this, rb, rb.buffer
      ensures rb.buffer == old(rb.buffer)
      ensures RingAllows(old(Value()), Advance(i)) && Value() == Step(old(Value()), Advance(i))
    {
      AssertionsHold(Value(), size, Advance(i));
      match threads[i] {
        case PushAcquire(val) =>
          capacity := capacity - 1;
          threads := threads[i := PushLock(val)];
        case PushLock(val) =>
          mtx := mtx - 1;
          threads := threads[i := PushInsert(val)];
        case PushInsert(val) =>
          rb.Push(val);
          pushed := pushed + [val];
          threads := threads[i := PushUnlock];
        case PushUnlock =>
          mtx := mtx + 1;
          threads := threads[i := PushPost];
        case PushPost =>
          numElements := numElements + 1;
          threads := threads[i := Outside];
      }
    }

    // One statement of buf_pop.
    method Pop(ghost size: nat, i: nat)
      requires Inv(Value(), size) && CanAdvance(Value(), i)
      requires var pc := threads[i];
               pc == PopAcquire || pc == PopLock || pc == PopRemove || pc.PopUnlock? || pc.PopPost?
      modifies this, rb, rb.buffer
      ensures rb.buffer == old(rb.buffer)
      ensures RingAllows(old(Value()), Advance(i)) && Value() == Step(old(Value()), Advance(i))
    {
      AssertionsHold(Value(), size, Advance(i));
      match threads[i] {
        case PopAcquire =>
          numElements := numElements - 1;
          threads := threads[i := PopLock];
        case PopLock =>
          mtx := mtx - 1;
          threads := threads[i := PopRemove];
        case PopRemove =>
          var val := rb.Pop();
          popped := popped + [val];
          threads := threads[i := PopUnlock(val)];
        case PopUnlock(val) =>
          mtx := mtx + 1;
          threads := threads[i := PopPost(val)];
        case PopPost(val) =>
          returned := returned + [val];
          capacity := capacity + 1;
          threads := threads[i := Outside];
      }
    }
  }
}
