// A resource with two priorities, built from semaphores. A releasing user passes the resource on by posting the
// semaphore of a waiting user, without ever marking it free ("passing the baton").
// Any number of users run allocate, work, deallocate; each program step is atomic and steps interleave freely.
module PriorityResource {
  import opened Totals

  type Priority = p: int | 0 <= p < 2

  // Where a user is; each name stands for the statement it will execute next.
  datatype Pc =
    | Released               // has not called allocate yet
    | AllocLock              // mtx.wait
    | AllocTest              // if busy
    | AllocRegister          // numWaiting[priority]++
    | AllocRelease           // mtx.notify
    | AllocWait              // sems[priority].wait
    | AllocRelock            // mtx.wait
    | AllocUnregister        // numWaiting[priority]--
    | AllocClaim(queued: bool)  // busy = true; `queued` remembers which branch led here
    | AllocUnlock            // mtx.notify
    | AllocReturn            // return value
    | Holding                // append the own id
    | DeallocLock            // mtx.wait
    | DeallocStore           // value = v
    | DeallocWake            // wake the next user or mark the resource free
    | DeallocUnlock          // mtx.notify
    | Done

  datatype User = User(id: int, priority: Priority, pc: Pc, val: seq<int>)

  // `log` is a history variable: the users in the order in which they stored their values.
  datatype State = State(value: seq<int>, mtx: nat, sems: seq<nat>, numWaiting: seq<int>, busy: bool,
                         users: seq<User>, log: seq<nat>)

  predicate Shaped(s: State) {
    |s.sems| == 2 && |s.numWaiting| == 2
  }

  predicate Enabled(s: State, i: nat)
    requires Shaped(s)
  {
    i < |s.users| &&
    match s.users[i].pc
    case AllocLock => s.mtx > 0
    case AllocRelock => s.mtx > 0
    case DeallocLock => s.mtx > 0
    case AllocWait => s.sems[s.users[i].priority] > 0
    case Done => false
    case _ => true
  }

  // The user's own part of its next step.
  function Moved(s: State, u: User): User {
    match u.pc
    case Released => u.(pc := AllocLock)
    case AllocLock => u.(pc := AllocTest)
    case AllocTest => u.(pc := if s.busy then AllocRegister else AllocClaim(false))
    case AllocRegister => u.(pc := AllocRelease)
    case AllocRelease => u.(pc := AllocWait)
    case AllocWait => u.(pc := AllocRelock)
    case AllocRelock => u.(pc := AllocUnregister)
    case AllocUnregister => u.(pc := AllocClaim(true))
    case AllocClaim(_) => u.(pc := AllocUnlock)
    case AllocUnlock => u.(pc := AllocReturn)
    case AllocReturn => u.(pc := Holding, val := s.value)
    case Holding => u.(pc := DeallocLock, val := u.val + [u.id])
    case DeallocLock => u.(pc := DeallocStore)
    case DeallocStore => u.(pc := DeallocWake)
    case DeallocWake => u.(pc := DeallocUnlock)
    case DeallocUnlock => u.(pc := Done)
    case Done => u
  }

  // Its effect on the mutex, the wait semaphores, the counters and the busy flag.
  function NextMtx(s: State, u: User): int {
    match u.pc
    case AllocLock => s.mtx - 1
    case AllocRelock => s.mtx - 1
    case DeallocLock => s.mtx - 1
    case AllocRelease => s.mtx + 1
    case AllocUnlock => s.mtx + 1
    case DeallocUnlock => s.mtx + 1
    case _ => s.mtx
  }

  function NextSem(s: State, u: User, p: Priority): nat
    requires Shaped(s) && (u.pc == AllocWait ==> s.sems[u.priority] > 0)
  {
    if u.pc == AllocWait && u.priority == p then s.sems[p] - 1
    else if u.pc == DeallocWake && (if p == 1 then s.numWaiting[1] > 0
                                    else s.numWaiting[1] <= 0 && s.numWaiting[0] > 0) then s.sems[p] + 1
    else s.sems[p]
  }

  function NextWaiting(s: State, u: User, p: Priority): int
    requires Shaped(s)
  {
    if u.pc == AllocRegister && u.priority == p then s.numWaiting[p] + 1
    else if u.pc == AllocUnregister && u.priority == p then s.numWaiting[p] - 1
    else s.numWaiting[p]
  }

  predicate NextBusy(s: State, u: User)
    requires Shaped(s)
  {
    if u.pc.AllocClaim? then true
    else if u.pc == DeallocWake && s.numWaiting[1] <= 0 && s.numWaiting[0] <= 0 then false
    else s.busy
  }

  function Step(s: State, i: nat): State
    requires Shaped(s) && Enabled(s, i)
  {
    var u := s.users[i];
    var stores := u.pc == DeallocStore;
    State(if stores then u.val else s.value,
          NextMtx(s, u),
          [NextSem(s, u, 0), NextSem(s, u, 1)],
          [NextWaiting(s, u, 0), NextWaiting(s, u, 1)],
          NextBusy(s, u),
          s.users[i := Moved(s, u)],
          if stores then s.log + [i] else s.log)
  }

  predicate IsStart(s: State) {
    && s.value == [] && s.mtx == 1 && s.sems == [0, 0] && s.numWaiting == [0, 0] && !s.busy && s.log == []
    && forall i :: 0 <= i < |s.users| ==> s.users[i].pc == Released
  }

  // ------------------------------------------------------------------------------------------ counting

  function InMutex(u: User): int {
    match u.pc
    case AllocTest => 1
    case AllocRegister => 1
    case AllocRelease => 1
    case AllocUnregister => 1
    case AllocClaim(_) => 1
    case AllocUnlock => 1
    case DeallocStore => 1
    case DeallocWake => 1
    case DeallocUnlock => 1
    case _ => 0
  }

  // The user owns the resource: it has been woken, or has claimed it, and has not passed it on.
  function Carries(u: User): int {
    match u.pc
    case AllocRelock => 1
    case AllocUnregister => 1
    case AllocClaim(queued) => if queued then 1 else 0
    case AllocUnlock => 1
    case AllocReturn => 1
    case Holding => 1
    case DeallocLock => 1
    case DeallocStore => 1
    case DeallocWake => 1
    case _ => 0
  }

  function Waits(p: Priority): User -> int {
    (u: User) => if u.priority == p && (u.pc == AllocRelease || u.pc == AllocWait || u.pc == AllocRelock ||
                                        u.pc == AllocUnregister) then 1 else 0
  }

  function Blocked(p: Priority): User -> int {
    (u: User) => if u.priority == p && (u.pc == AllocRelease || u.pc == AllocWait) then 1 else 0
  }

  ghost predicate UserOk(s: State, u: User) {
    && (u.pc == AllocClaim(false) ==> !s.busy)
    && (u.pc == AllocRegister || u.pc == AllocRelease ==> s.busy)
    && (u.pc == Holding ==> u.val == s.value)
    && (u.pc == DeallocLock || u.pc == DeallocStore ==> u.val == s.value + [u.id])
  }

  predicate HasStored(u: User) {
    u.pc == DeallocWake || u.pc == DeallocUnlock || u.pc == Done
  }

  function IdsOf(users: seq<User>, log: seq<nat>): seq<int>
    requires forall k :: 0 <= k < |log| ==> log[k] < |users|
  {
    seq(|log|, k requires 0 <= k < |log| => users[log[k]].id)
  }

  ghost predicate LogOk(s: State) {
    && (forall k :: 0 <= k < |s.log| ==> s.log[k] < |s.users| && HasStored(s.users[s.log[k]]))
    && (forall i :: 0 <= i < |s.users| && HasStored(s.users[i]) ==> i in s.log)
    && (forall k, l :: 0 <= k < l < |s.log| ==> s.log[k] != s.log[l])
    && s.value == IdsOf(s.users, s.log)
  }

  // Exactly the registered users are counted, and every posted token has a user to take it.
  ghost predicate PriorityOk(s: State, p: Priority)
    requires Shaped(s)
  {
    s.numWaiting[p] == Sum(Waits(p), s.users) && s.sems[p] <= Sum(Blocked(p), s.users)
  }

  ghost predicate CountsOk(s: State)
    requires Shaped(s)
  {
    && s.mtx + Sum(InMutex, s.users) == 1
    && Sum(Carries, s.users) + s.sems[0] + s.sems[1] == (if s.busy then 1 else 0)
    && (forall p: Priority :: PriorityOk(s, p))
    && (s.numWaiting[0] + s.numWaiting[1] > 0 ==> s.busy)
  }

  ghost predicate Inv(s: State) {
    && Shaped(s)
    && CountsOk(s)
    && (forall u :: u in s.users ==> UserOk(s, u))
    && LogOk(s)
  }

  // ------------------------------------------------------------------------------------------ preservation

  lemma AllNonNegative(s: State)
    ensures 0 <= Sum(InMutex, s.users) && 0 <= Sum(Carries, s.users)
    ensures forall p: Priority :: 0 <= Sum(Blocked(p), s.users) && 0 <= Sum(Waits(p), s.users)
  {
    SumNonNegative(InMutex, s.users);
    SumNonNegative(Carries, s.users);
    forall p: Priority
      ensures 0 <= Sum(Blocked(p), s.users) && 0 <= Sum(Waits(p), s.users)
    {
      SumNonNegative(Blocked(p), s.users);
      SumNonNegative(Waits(p), s.users);
    }
  }

  // At most one user is inside the mutex, and at most one owns the resource.
  lemma AtMostOne(s: State, i: nat, j: nat)
    requires Shaped(s) && CountsOk(s) && i < |s.users| && j < |s.users| && i != j
    ensures InMutex(s.users[i]) + InMutex(s.users[j]) <= 1
    ensures Carries(s.users[i]) + Carries(s.users[j]) <= 1
    ensures Carries(s.users[i]) == 1 ==> s.busy && s.sems == [0, 0]
    ensures InMutex(s.users[i]) == 1 ==> s.mtx == 0
  {
    SumAtLeastTwo(InMutex, s.users, if i < j then i else j, if i < j then j else i);
    SumAtLeastTwo(Carries, s.users, if i < j then i else j, if i < j then j else i);
    SumAtLeast(Carries, s.users, i);
    assert s.sems == [s.sems[0], s.sems[1]];
  }

  // A user that is inside the mutex alone, or owns the resource alone, sees these bounds.
  lemma OwnBounds(s: State, i: nat)
    requires Shaped(s) && CountsOk(s) && i < |s.users|
    ensures Carries(s.users[i]) == 1 ==> s.busy && s.sems[0] == s.sems[1] == 0 && Sum(Carries, s.users) == 1
    ensures forall p: Priority :: Waits(p)(s.users[i]) <= s.numWaiting[p]
    ensures forall p: Priority :: Blocked(p)(s.users[i]) <= Sum(Blocked(p), s.users)
    ensures 0 <= s.numWaiting[0] && 0 <= s.numWaiting[1]
  {
    AllNonNegative(s);
    SumAtLeast(Carries, s.users, i);
    forall p: Priority
      ensures Waits(p)(s.users[i]) <= s.numWaiting[p] && Blocked(p)(s.users[i]) <= Sum(Blocked(p), s.users)
    {
      assert PriorityOk(s, p);
      SumAtLeast(Waits(p), s.users, i);
      SumAtLeast(Blocked(p), s.users, i);
    }
    assert PriorityOk(s, 0) && PriorityOk(s, 1);
  }

  // When the only owner is releasing the resource, everybody who is registered is still waiting for a token.
  lemma RegisteredAreBlocked(s: State, i: nat, p: Priority)
    requires Shaped(s) && CountsOk(s) && i < |s.users| && s.users[i].pc == DeallocWake
    ensures s.numWaiting[p] == Sum(Blocked(p), s.users)
  {
    forall j | 0 <= j < |s.users|
      ensures Waits(p)(s.users[j]) == Blocked(p)(s.users[j])
    {
      if j != i { AtMostOne(s, i, j); }
    }
    forall u | u in s.users
      ensures Waits(p)(u) == Blocked(p)(u)
    {
    }
    assert PriorityOk(s, p);
    SumPointwise(Waits(p), Blocked(p), s.users);
    SumPointwise(Blocked(p), Waits(p), s.users);
  }

  lemma StepKeepsMutex(s: State, i: nat)
    requires Shaped(s) && CountsOk(s) && Enabled(s, i)
    ensures Step(s, i).mtx + Sum(InMutex, Step(s, i).users) == 1
  {
    SumUpdate(InMutex, s.users, i, Moved(s, s.users[i]));
  }

  lemma StepKeepsBaton(s: State, i: nat)
    requires Shaped(s) && CountsOk(s) && Enabled(s, i) && UserOk(s, s.users[i])
    ensures var s' := Step(s, i);
            Sum(Carries, s'.users) + s'.sems[0] + s'.sems[1] == (if s'.busy then 1 else 0)
  {
    SumUpdate(Carries, s.users, i, Moved(s, s.users[i]));
    OwnBounds(s, i);
    AllNonNegative(s);
  }

  lemma StepKeepsWaiting(s: State, i: nat, p: Priority)
    requires Shaped(s) && CountsOk(s) && Enabled(s, i)
    ensures Step(s, i).numWaiting[p] == Sum(Waits(p), Step(s, i).users)
  {
    assert PriorityOk(s, p);
    SumUpdate(Waits(p), s.users, i, Moved(s, s.users[i]));
  }

  lemma StepKeepsTokens(s: State, i: nat, p: Priority)
    requires Shaped(s) && CountsOk(s) && Enabled(s, i)
    ensures Step(s, i).sems[p] <= Sum(Blocked(p), Step(s, i).users)
  {
    assert PriorityOk(s, p);
    SumUpdate(Blocked(p), s.users, i, Moved(s, s.users[i]));
    if s.users[i].pc == DeallocWake {
      OwnBounds(s, i);
      RegisteredAreBlocked(s, i, p);
    }
  }

  lemma StepKeepsCounts(s: State, i: nat)
    requires Shaped(s) && CountsOk(s) && Enabled(s, i) && UserOk(s, s.users[i])
    ensures Shaped(Step(s, i)) && CountsOk(Step(s, i))
  {
    StepKeepsMutex(s, i);
    StepKeepsBaton(s, i);
    forall p: Priority
      ensures PriorityOk(Step(s, i), p)
    {
      StepKeepsWaiting(s, i, p);
      StepKeepsTokens(s, i, p);
    }
    OwnBounds(s, i);
  }

  lemma StepKeepsUsers(s: State, i: nat)
    requires Inv(s) && Enabled(s, i)
    ensures forall u :: u in Step(s, i).users ==> UserOk(Step(s, i), u)
  {
    var s' := Step(s, i);
    var u := s.users[i];
    assert u in s.users && UserOk(s, u);
    OwnBounds(s, i);
    forall j | 0 <= j < |s'.users|
      ensures UserOk(s', s'.users[j])
    {
      if j != i {
        assert s.users[j] in s.users && UserOk(s, s.users[j]);
        AtMostOne(s, i, j);
      }
    }
  }

  lemma StoreExtendsLog(s: State, i: nat)
    requires Shaped(s) && LogOk(s) && Enabled(s, i) && UserOk(s, s.users[i]) && s.users[i].pc == DeallocStore
    ensures LogOk(Step(s, i))
  {
    var s' := Step(s, i);
    assert i !in s.log;
    forall k | 0 <= k < |s'.log|
      ensures s'.log[k] < |s'.users| && HasStored(s'.users[s'.log[k]])
    {
      if k < |s.log| { assert s'.log[k] == s.log[k]; }
    }
    assert s'.log[|s.log|] == i;
    assert forall k :: 0 <= k < |s.log| ==> s'.log[k] == s.log[k];
    assert s'.value == IdsOf(s'.users, s'.log);
  }

  // The log only depends on who has stored a value, and on the ids.
  lemma LogIsAboutStored(s: State, s': State)
    requires LogOk(s) && s'.log == s.log && s'.value == s.value && |s'.users| == |s.users|
    requires forall j :: 0 <= j < |s.users| ==> SameStored(s.users[j], s'.users[j])
    ensures LogOk(s')
  {
    forall k | 0 <= k < |s.log|
      ensures HasStored(s'.users[s.log[k]])
    {
      assert SameStored(s.users[s.log[k]], s'.users[s.log[k]]);
    }
    forall j | 0 <= j < |s.users| && HasStored(s'.users[j])
      ensures j in s.log
    {
      assert SameStored(s.users[j], s'.users[j]);
    }
    assert IdsOf(s'.users, s'.log) == IdsOf(s.users, s.log);
  }

  predicate SameStored(u: User, u': User) {
    HasStored(u') == HasStored(u) && u'.id == u.id
  }

  lemma MovedKeepsStored(s: State, u: User)
    requires u.pc != DeallocStore
    ensures SameStored(u, Moved(s, u))
  {
  }

  lemma OtherStepsKeepLog(s: State, i: nat)
    requires Shaped(s) && LogOk(s) && Enabled(s, i) && s.users[i].pc != DeallocStore
    ensures LogOk(Step(s, i))
  {
    var s' := Step(s, i);
    MovedKeepsStored(s, s.users[i]);
    forall j | 0 <= j < |s.users|
      ensures SameStored(s.users[j], s'.users[j])
    {
      assert s'.users[j] == if j == i then Moved(s, s.users[i]) else s.users[j];
    }
    LogIsAboutStored(s, s');
  }

  lemma StepKeepsInv(s: State, i: nat)
    requires Inv(s) && Enabled(s, i)
    ensures Inv(Step(s, i))
  {
    assert s.users[i] in s.users && UserOk(s, s.users[i]);
    StepKeepsCounts(s, i);
    StepKeepsUsers(s, i);
    if s.users[i].pc == DeallocStore {
      StoreExtendsLog(s, i);
    } else {
      OtherStepsKeepLog(s, i);
    }
  }

  lemma {:induction false} SumOfZeros(f: User -> int, users: seq<User>)
    requires forall u :: u in users ==> f(u) == 0
    ensures Sum(f, users) == 0
  {
    if users != [] { SumOfZeros(f, users[1..]); }
  }

  lemma StartInv(s: State)
    requires IsStart(s)
    ensures Inv(s)
  {
    SumOfZeros(InMutex, s.users);
    SumOfZeros(Carries, s.users);
    forall p: Priority
      ensures Sum(Waits(p), s.users) == 0 && Sum(Blocked(p), s.users) == 0
    {
      SumOfZeros(Waits(p), s.users);
      SumOfZeros(Blocked(p), s.users);
    }
  }

  // -------------------------------------------------------------------------------- the program itself

  // The resource with its semaphores as fields, and the users that call it. Its methods run one
  // statement of one user.
  class Resource {
    var value: seq<int>
    var mtx: nat
    var sems: seq<nat>
    var numWaiting: seq<int>
    var busy: bool
    var users: seq<User>
    ghost var log: seq<nat>

    ghost function Value(): State
      reads this
    {
      State(value, mtx, sems, numWaiting, busy, users, log)
    }

    constructor (configs: seq<(int, Priority)>)
      ensures IsStart(Value()) && |users| == |configs|
      ensures forall i :: 0 <= i < |configs| ==> users[i].id == configs[i].0 && users[i].priority == configs[i].1
    {
      value := [];
      mtx := 1;
      sems := [0, 0];
      numWaiting := [0, 0];
      busy := false;
      users := seq(|configs|, i requires 0 <= i < |configs| => User(configs[i].0, configs[i].1, Released, []));
      log := [];
    }

    method Goto(i: nat, pc: Pc)
      requires i < |users|
      modifies this`users
      ensures users == old(users)[i := old(users[i]).(pc := pc)]
    {
      users := users[i := users[i].(pc := pc)];
    }

    method SemNotify(p: Priority)
      requires |sems| == 2
      modifies this`sems
      ensures sems == old(sems)[p := old(sems[p]) + 1]
    {
      sems := sems[p := sems[p] + 1];
    }

    method SemWait(p: Priority)
      requires |sems| == 2 && sems[p] > 0
      modifies this`sems
      ensures sems == old(sems)[p := old(sems[p]) - 1]
    {
      sems := sems[p := sems[p] - 1];
    }

    // One statement of the part of allocate that is run when the resource is busy.
    method AwaitTurn(i: nat)
      requires Shaped(Value()) && Enabled(Value(), i) && InAwaitTurn(users[i])
      modifies this
      ensures Value() == Step(old(Value()), i)
    {
      var u := users[i];
      var p := u.priority;
      assert sems == [sems[0], sems[1]] && numWaiting == [numWaiting[0], numWaiting[1]];
      match u.pc {
        case AllocRegister =>
          numWaiting := numWaiting[p := numWaiting[p] + 1];
          assert numWaiting == [numWaiting[0], numWaiting[1]];
          Goto(i, AllocRelease);
        case AllocRelease =>
          mtx := mtx + 1;
          Goto(i, AllocWait);
        case AllocWait =>
          SemWait(p);
          assert sems == [sems[0], sems[1]];
          Goto(i, AllocRelock);
        case AllocRelock =>
          mtx := mtx - 1;
          Goto(i, AllocUnregister);
        case AllocUnregister =>
          numWaiting := numWaiting[p := numWaiting[p] - 1];
          assert numWaiting == [numWaiting[0], numWaiting[1]];
          Goto(i, AllocClaim(true));
      }
    }

    // One statement of the rest of allocate.
    method Allocate(i: nat)
      requires Shaped(Value()) && Enabled(Value(), i) && InAllocate(users[i])
      modifies this
      ensures Value() == Step(old(Value()), i)
    {
      var u := users[i];
      assert sems == [sems[0], sems[1]] && numWaiting == [numWaiting[0], numWaiting[1]];
      match u.pc {
        case AllocLock =>
          mtx := mtx - 1;
          Goto(i, AllocTest);
        case AllocTest =>
          if busy { Goto(i, AllocRegister); } else { Goto(i, AllocClaim(false)); }
        case AllocClaim(_) =>
          busy := true;
          Goto(i, AllocUnlock);
        case AllocUnlock =>
          mtx := mtx + 1;
          Goto(i, AllocReturn);
        case AllocReturn =>
          users := users[i := u.(pc := Holding, val := value)];
      }
    }

    // One step of the user: it calls allocate, and once it has the value it appends its id and calls deallocate.
    method Use(i: nat)
      requires Shaped(Value()) && Enabled(Value(), i) && (users[i].pc == Released || users[i].pc == Holding)
      modifies this
      ensures Value() == Step(old(Value()), i)
    {
      var u := users[i];
      assert sems == [sems[0], sems[1]] && numWaiting == [numWaiting[0], numWaiting[1]];
      if u.pc == Released {
        Goto(i, AllocLock);
      } else {
        users := users[i := u.(pc := DeallocLock, val := u.val + [u.id])];
      }
    }

    method WakeNext(ghost u: User)
      requires Shaped(Value()) && u.pc == DeallocWake
      modifies this`sems, this`busy
      ensures sems == [NextSem(old(Value()), u, 0), NextSem(old(Value()), u, 1)]
      ensures busy == NextBusy(old(Value()), u)
    {
      if numWaiting[1] > 0 {
        SemNotify(1);
      } else if numWaiting[0] > 0 {
        SemNotify(0);
      } else {
        busy := false;
      }
      assert sems == [sems[0], sems[1]];
    }

    // One statement of deallocate.
    method Deallocate(i: nat)
      requires Shaped(Value()) && Enabled(Value(), i) && InDeallocate(users[i])
      modifies this
      ensures Value() == Step(old(Value()), i)
    {
      var u := users[i];
      assert sems == [sems[0], sems[1]] && numWaiting == [numWaiting[0], numWaiting[1]];
      match u.pc {
        case DeallocLock =>
          mtx := mtx - 1;
          Goto(i, DeallocStore);
        case DeallocStore =>
          value := u.val;
          log := log + [i];
          Goto(i, DeallocWake);
        case DeallocWake =>
          WakeNext(u);
          Goto(i, DeallocUnlock);
        case DeallocUnlock =>
          mtx := mtx + 1;
          Goto(i, Done);
      }
    }
  }

  predicate InAwaitTurn(u: User) {
    u.pc == AllocRegister || u.pc == AllocRelease || u.pc == AllocWait || u.pc == AllocRelock || u.pc == AllocUnregister
  }

  predicate InAllocate(u: User) {
    u.pc == AllocLock || u.pc == AllocTest || u.pc.AllocClaim? || u.pc == AllocUnlock || u.pc == AllocReturn
  }

  predicate InDeallocate(u: User) {
    u.pc == DeallocLock || u.pc == DeallocStore || u.pc == DeallocWake || u.pc == DeallocUnlock
  }
}
