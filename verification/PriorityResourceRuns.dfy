// What every interleaving of the users of the resource guarantees.
module PriorityResourceRuns {
  import opened Totals
  import opened PriorityResource

  // ------------------------------------------------------------------------------------------ every state

  // The baton: owners, tokens nobody has taken yet, and users that took one add up to one while the resource is
  // busy and to none while it is free; two users never own the resource together.
  lemma BatonIsUnique(s: State)
    requires Inv(s)
    ensures Sum(Carries, s.users) + s.sems[0] + s.sems[1] == (if s.busy then 1 else 0)
    ensures forall i, j :: 0 <= i < j < |s.users| ==> !(s.users[i].pc == Holding && s.users[j].pc == Holding)
    ensures forall i, j :: 0 <= i < j < |s.users| ==> Carries(s.users[i]) + Carries(s.users[j]) <= 1
  {
    forall i, j | 0 <= i < j < |s.users|
      ensures Carries(s.users[i]) + Carries(s.users[j]) <= 1
    {
      AtMostOne(s, i, j);
    }
  }

  // A user that has been registered is never forgotten: as long as it waits, somebody owns the resource, or a token
  // is posted and there is a blocked user of that priority to take it.
  lemma NoLostWakeup(s: State, i: nat)
    requires Inv(s) && i < |s.users| && (s.users[i].pc == AllocWait || s.users[i].pc == AllocRelease)
    ensures s.busy
    ensures || (exists j :: 0 <= j < |s.users| && Carries(s.users[j]) == 1)
            || (exists p: Priority, j ::
                  s.sems[p] == 1 && 0 <= j < |s.users| && s.users[j].priority == p && Blocked(p)(s.users[j]) == 1)
  {
    var u := s.users[i];
    OwnBounds(s, i);
    assert s.numWaiting[u.priority] >= 1;
    AllNonNegative(s);
    if Sum(Carries, s.users) > 0 {
      var j := SumWitness(Carries, s.users);
    } else {
      var p: Priority := if s.sems[0] > 0 then 0 else 1;
      assert PriorityOk(s, p);
      var j := SumWitness(Blocked(p), s.users);
    }
  }

  // Strict priority: a release that wakes a low-priority user happens only when no high-priority user waits.
  lemma ReleasePrefersHigh(s: State, i: nat)
    requires Inv(s) && Enabled(s, i) && s.users[i].pc == DeallocWake
    requires Step(s, i).sems[0] > s.sems[0]
    ensures forall j :: 0 <= j < |s.users| ==> Waits(1)(s.users[j]) == 0
  {
    assert PriorityOk(s, 1);
    forall j | 0 <= j < |s.users|
      ensures Waits(1)(s.users[j]) == 0
    {
      SumAtLeast(Waits(1), s.users, j);
    }
  }

  // A release passes the resource on exactly when somebody waits, to the highest priority that waits.
  lemma ReleaseHandsOver(s: State, i: nat)
    requires Inv(s) && Enabled(s, i) && s.users[i].pc == DeallocWake
    ensures var s' := Step(s, i);
            var anyHigh := exists j :: 0 <= j < |s.users| && Waits(1)(s.users[j]) == 1;
            var anyLow := exists j :: 0 <= j < |s.users| && Waits(0)(s.users[j]) == 1;
            && s'.busy == (anyHigh || anyLow)
            && s'.sems == [if !anyHigh && anyLow then 1 else 0, if anyHigh then 1 else 0]
  {
    OwnBounds(s, i);
    assert PriorityOk(s, 0) && PriorityOk(s, 1);
    forall p: Priority
      ensures s.numWaiting[p] > 0 <==> exists j :: 0 <= j < |s.users| && Waits(p)(s.users[j]) == 1
    {
      assert PriorityOk(s, p);
      if s.numWaiting[p] > 0 {
        var j := SumWitness(Waits(p), s.users);
      }
      if j :| 0 <= j < |s.users| && Waits(p)(s.users[j]) == 1 {
        SumAtLeast(Waits(p), s.users, j);
      }
    }
  }

  // ------------------------------------------------------------------------------------------ progress

  lemma MutexHolderCanStep(s: State) returns (i: nat)
    requires Inv(s) && s.mtx == 0
    ensures Enabled(s, i)
  {
    i := SumWitness(InMutex, s.users);
  }

  // As long as one user is not done, some user can take a step.
  lemma NoDeadlock(s: State)
    requires Inv(s) && exists i :: 0 <= i < |s.users| && s.users[i].pc != Done
    ensures exists i: nat :: Enabled(s, i)
  {
    var i: nat :| 0 <= i < |s.users| && s.users[i].pc != Done;
    AllNonNegative(s);
    if s.mtx == 0 {
      var j := MutexHolderCanStep(s);
    } else if s.users[i].pc == AllocWait {
      NoLostWakeup(s, i);
      if j :| 0 <= j < |s.users| && Carries(s.users[j]) == 1 {
        NobodyInside(s, j);
        assert Enabled(s, j);
      } else {
        var p: Priority, j: nat :| s.sems[p] == 1 && 0 <= j < |s.users| && s.users[j].priority == p &&
                                   Blocked(p)(s.users[j]) == 1;
        NobodyInside(s, j);
        assert Enabled(s, j);
      }
    } else {
      NobodyInside(s, i);
      assert Enabled(s, i);
    }
  }

  lemma NobodyInside(s: State, i: nat)
    requires Inv(s) && s.mtx > 0 && i < |s.users|
    ensures InMutex(s.users[i]) == 0
  {
    SumAtLeast(InMutex, s.users, i);
  }

  // ------------------------------------------------------------------------------------------ runs

  ghost predicate CanRun(s: State, schedule: seq<nat>)
    requires Inv(s)
    decreases |schedule|
  {
    schedule != [] ==>
      Enabled(s, schedule[0]) && (StepKeepsInv(s, schedule[0]); CanRun(Step(s, schedule[0]), schedule[1..]))
  }

  ghost function Run(s: State, schedule: seq<nat>): State
    requires Inv(s) && CanRun(s, schedule)
    decreases |schedule|
  {
    if schedule == [] then s else
      StepKeepsInv(s, schedule[0]);
      Run(Step(s, schedule[0]), schedule[1..])
  }

  lemma {:induction false} RunKeepsInv(s: State, schedule: seq<nat>)
    requires Inv(s) && CanRun(s, schedule)
    ensures Inv(Run(s, schedule)) && |Run(s, schedule).users| == |s.users|
    ensures forall i :: 0 <= i < |s.users| ==> Run(s, schedule).users[i].id == s.users[i].id
    decreases |schedule|
  {
    if schedule != [] {
      StepKeepsInv(s, schedule[0]);
      RunKeepsInv(Step(s, schedule[0]), schedule[1..]);
    }
  }

  // In every state of every run from the start the baton is unique.
  lemma MutualExclusion(s: State, schedule: seq<nat>, i: nat, j: nat)
    requires IsStart(s) && Inv(s) && CanRun(s, schedule) && i < j < |s.users|
    ensures var t := Run(s, schedule);
            |t.users| == |s.users| && !(t.users[i].pc == Holding && t.users[j].pc == Holding)
  {
    RunKeepsInv(s, schedule);
    BatonIsUnique(Run(s, schedule));
  }

  // The longest way from each statement to the end.
  function StepsLeft(u: User): int {
    match u.pc
    case Released => 16
    case AllocLock => 15
    case AllocTest => 14
    case AllocRegister => 13
    case AllocRelease => 12
    case AllocWait => 11
    case AllocRelock => 10
    case AllocUnregister => 9
    case AllocClaim(_) => 8
    case AllocUnlock => 7
    case AllocReturn => 6
    case Holding => 5
    case DeallocLock => 4
    case DeallocStore => 3
    case DeallocWake => 2
    case DeallocUnlock => 1
    case Done => 0
  }

  lemma StepGetsCloser(s: State, i: nat)
    requires Inv(s) && Enabled(s, i)
    ensures Sum(StepsLeft, Step(s, i).users) < Sum(StepsLeft, s.users)
  {
    SumUpdate(StepsLeft, s.users, i, Moved(s, s.users[i]));
  }

  lemma {:induction false} RunsAreShort(s: State, schedule: seq<nat>)
    requires Inv(s) && CanRun(s, schedule)
    ensures |schedule| + Sum(StepsLeft, Run(s, schedule).users) <= Sum(StepsLeft, s.users)
    decreases |schedule|
  {
    if schedule != [] {
      StepKeepsInv(s, schedule[0]);
      StepGetsCloser(s, schedule[0]);
      RunsAreShort(Step(s, schedule[0]), schedule[1..]);
    }
  }

  ghost predicate Finished(s: State) {
    Shaped(s) && forall i: nat :: !Enabled(s, i)
  }

  // The numbers below n in ascending order.
  function Upto(n: nat): seq<nat> {
    if n == 0 then [] else Upto(n - 1) + [n - 1]
  }

  lemma {:induction false} UptoHasEachOnce(n: nat)
    ensures forall i: nat :: multiset(Upto(n))[i] == if i < n then 1 else 0
    ensures |Upto(n)| == n
  {
    if n > 0 { UptoHasEachOnce(n - 1); }
  }

  lemma {:induction false} NoRepeats(log: seq<nat>)
    requires forall k, l :: 0 <= k < l < |log| ==> log[k] != log[l]
    ensures forall i: nat :: multiset(log)[i] == if i in log then 1 else 0
  {
    if log != [] {
      NoRepeats(log[1..]);
      assert log == [log[0]] + log[1..];
      assert log[0] !in log[1..];
      assert multiset(log) == multiset{log[0]} + multiset(log[1..]);
    }
  }

  // Nobody is done before everybody is served: a state in which nobody can step is one in which everybody is done.
  lemma FinishedIsDone(s: State)
    requires Inv(s) && Finished(s)
    ensures forall i :: 0 <= i < |s.users| ==> s.users[i].pc == Done
  {
    if i :| 0 <= i < |s.users| && s.users[i].pc != Done {
      NoDeadlock(s);
      assert false;
    }
  }

  // Then every user has stored its value exactly once.
  lemma DoneHasStoredOnce(s: State)
    requires Inv(s) && forall i :: 0 <= i < |s.users| ==> s.users[i].pc == Done
    ensures multiset(s.log) == multiset(Upto(|s.users|))
  {
    assert forall i :: 0 <= i < |s.users| ==> HasStored(s.users[i]);
    NoRepeats(s.log);
    UptoHasEachOnce(|s.users|);
    forall i: nat
      ensures i in s.log <==> i < |s.users|
    {
    }
  }

  // No run from the start takes more than 16 steps per user.
  lemma RunsEnd(s: State, schedule: seq<nat>)
    requires IsStart(s) && Inv(s) && CanRun(s, schedule)
    ensures |schedule| <= 16 * |s.users|
  {
    RunsAreShort(s, schedule);
    forall u | u in s.users
      ensures StepsLeft(u) == 16
    {
    }
    SumBounds(StepsLeft, s.users, 16, 16);
    SumNonNegative(StepsLeft, Run(s, schedule).users);
  }

  lemma ListOfEverybody(users: seq<User>, final: seq<User>, log: seq<nat>)
    requires multiset(log) == multiset(Upto(|users|)) && |final| == |users|
    requires forall i :: 0 <= i < |users| ==> final[i].id == users[i].id
    requires forall k :: 0 <= k < |log| ==> log[k] < |final|
    ensures IdsOf(final, log) == IdsOf(users, log) && |log| == |users|
  {
    AsLongAsUpto(log, |users|);
  }

  lemma AsLongAsUpto(log: seq<nat>, n: nat)
    requires multiset(log) == multiset(Upto(n))
    ensures |log| == n
  {
    UptoHasEachOnce(n);
    assert |multiset(log)| == |log| && |multiset(Upto(n))| == n;
  }

  // Value hand-over and completion: a run that cannot go on has served every user exactly once, and the stored list
  // is their ids in the order in which they held the resource.
  lemma EverybodyIsServedOnce(s: State, schedule: seq<nat>)
    requires IsStart(s) && Inv(s) && CanRun(s, schedule) && Finished(Run(s, schedule))
    ensures var t := Run(s, schedule);
            && (forall i :: 0 <= i < |t.users| ==> t.users[i].pc == Done)
            && multiset(t.log) == multiset(Upto(|s.users|))
            && (forall k :: 0 <= k < |t.log| ==> t.log[k] < |s.users|)
            && t.value == IdsOf(s.users, t.log)
            && |t.value| == |s.users|
  {
    RunKeepsInv(s, schedule);
    var t := Run(s, schedule);
    FinishedIsDone(t);
    DoneHasStoredOnce(t);
    ListOfEverybody(s.users, t.users, t.log);
  }

  // Each holder works on exactly what its predecessor stored, and adds itself.
  lemma HolderSeesPredecessor(s: State, i: nat)
    requires Inv(s) && i < |s.users|
    ensures s.users[i].pc == Holding ==> s.users[i].val == IdsOf(s.users, s.log)
    ensures s.users[i].pc == DeallocStore ==> Step(s, i).value == IdsOf(s.users, s.log + [i])
  {
    assert s.users[i] in s.users && UserOk(s, s.users[i]);
    if s.users[i].pc == DeallocStore {
      assert Enabled(s, i);
      assert IdsOf(s.users, s.log + [i]) == IdsOf(s.users, s.log) + [s.users[i].id];
    }
  }

  // ------------------------------------------------------------------------------------------ priority inversion

  // A low-priority user that has been handed the resource, or has found it free, and does not hold it yet.
  function LowOnTheWay(u: User): int {
    if u.priority == 0 && (u.pc == AllocRelock || u.pc == AllocUnregister || u.pc.AllocClaim? ||
                           u.pc == AllocUnlock || u.pc == AllocReturn) then 1 else 0
  }

  ghost function LowPending(s: State): int
    requires Shaped(s)
  {
    s.sems[0] + Sum(LowOnTheWay, s.users)
  }

  // User `i` starts to hold the resource in this step, and has low priority.
  function LowEntry(s: State, i: nat): int {
    if i < |s.users| && s.users[i].priority == 0 && s.users[i].pc == AllocReturn then 1 else 0
  }

  ghost predicate HighStaysBlocked(s: State, schedule: seq<nat>, h: nat)
    requires Inv(s) && CanRun(s, schedule)
    decreases |schedule|
  {
    && h < |s.users| && s.users[h].priority == 1 && s.users[h].pc == AllocWait
    && (schedule != [] ==>
          (StepKeepsInv(s, schedule[0]); HighStaysBlocked(Step(s, schedule[0]), schedule[1..], h)))
  }

  ghost function LowEntries(s: State, schedule: seq<nat>): int
    requires Inv(s) && CanRun(s, schedule)
    decreases |schedule|
  {
    if schedule == [] then 0 else
      StepKeepsInv(s, schedule[0]);
      LowEntry(s, schedule[0]) + LowEntries(Step(s, schedule[0]), schedule[1..])
  }

  lemma UserPendingFalls(s: State, u: User)
    requires Shaped(s) && s.numWaiting[1] >= 1 && s.busy && (u.pc == AllocWait ==> s.sems[u.priority] > 0)
    ensures NextSem(s, u, 0) + LowOnTheWay(Moved(s, u)) + (if u.priority == 0 && u.pc == AllocReturn then 1 else 0) <=
            s.sems[0] + LowOnTheWay(u)
  {
  }

  lemma HighWaiterIsCounted(s: State, h: nat)
    requires Shaped(s) && CountsOk(s) && h < |s.users|
    requires s.users[h].priority == 1 && s.users[h].pc == AllocWait
    ensures s.numWaiting[1] >= 1 && s.busy
  {
    OwnBounds(s, h);
    assert Waits(1)(s.users[h]) == 1;
  }

  lemma LowPendingFalls(s: State, i: nat, h: nat)
    requires Shaped(s) && CountsOk(s) && Enabled(s, i) && h < |s.users|
    requires s.users[h].priority == 1 && s.users[h].pc == AllocWait
    ensures LowPending(Step(s, i)) + LowEntry(s, i) <= LowPending(s)
  {
    SumUpdate(LowOnTheWay, s.users, i, Moved(s, s.users[i]));
    HighWaiterIsCounted(s, h);
    UserPendingFalls(s, s.users[i]);
  }

  lemma AtMostOneOnTheWay(s: State, h: nat)
    requires Inv(s) && h < |s.users| && s.users[h].priority == 1 && s.users[h].pc == AllocWait
    ensures 0 <= Sum(LowOnTheWay, s.users) && LowPending(s) <= 1
  {
    OwnBounds(s, h);
    SumNonNegative(LowOnTheWay, s.users);
    forall u | u in s.users
      ensures LowOnTheWay(u) <= Carries(u)
    {
      assert UserOk(s, u);
    }
    SumPointwise(LowOnTheWay, Carries, s.users);
  }

  lemma {:induction false} LowEntriesAreBounded(s: State, schedule: seq<nat>, h: nat)
    requires Inv(s) && CanRun(s, schedule) && HighStaysBlocked(s, schedule, h)
    ensures LowEntries(s, schedule) <= LowPending(s)
    decreases |schedule|
  {
    if schedule == [] {
      AtMostOneOnTheWay(s, h);
    } else {
      StepKeepsInv(s, schedule[0]);
      LowPendingFalls(s, schedule[0], h);
      LowEntriesAreBounded(Step(s, schedule[0]), schedule[1..], h);
    }
  }

  // Bounded priority inversion: while a high-priority user is blocked, at most one low-priority user comes to hold
  // the resource, however many arrive and however the steps interleave.
  lemma PriorityInversionIsBounded(s: State, schedule: seq<nat>, h: nat)
    requires Inv(s) && CanRun(s, schedule) && HighStaysBlocked(s, schedule, h)
    ensures LowEntries(s, schedule) <= 1
  {
    LowEntriesAreBounded(s, schedule, h);
    AtMostOneOnTheWay(s, h);
  }
}
