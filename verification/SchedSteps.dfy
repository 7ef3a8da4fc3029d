/** Every operation keeps the invariant, and where each task is afterwards. */
module SchedSteps {
  import opened Seqs
  import opened SchedModel
  import opened SchedInv

  // ----- the pieces of an operation

  lemma BlockCore(s: State)
    requires Core(s) && s.cur != IDLE && s.cur in s.ready
    ensures var s1 := SetBlock(s, s.cur);
            Core(s1) && Leaves(s, s1, s.cur)
  {
    assert s.ready == ListAt(s, ReadyQ);
    PlacedDrop(s, SetBlock(s, s.cur), ReadyQ, s.cur);
    WithoutMembers(s.ready, s.cur);
  }

  lemma ReadyCore(s: State, t: TaskId)
    requires Core(s) && t in s.tasks && t != IDLE && !On(s, t)
    ensures var s1 := SetReady(s, t);
            Core(s1) && Joins(s, s1, t)
  {
    assert t !in ListAt(s, SleepQ);
    PlacedPush(s, SetReady(s, t), ReadyQ, t);
  }

  lemma SleepCore(s: State, t: TaskId, n: nat)
    requires Core(s) && t in s.tasks && t != IDLE && !On(s, t) && n > 0
    ensures var s1 := SetSleep(s, t, n);
            Core(s1) && Joins(s, s1, t)
  {
    PlacedPush(s, SetSleep(s, t, n), SleepQ, t);
  }

  /** A change of one semaphore that queues `t`. */
  lemma SemQueueCore(s: State, i: nat, m: Sem, t: TaskId)
    requires Core(s) && i < |s.sems| && t in s.tasks && t != IDLE && !On(s, t)
    requires SemOk(m) && m.waiters == s.sems[i].waiters + [t]
    ensures var s1 := s.(sems := s.sems[i := m]);
            Core(s1) && Joins(s, s1, t)
  {
    PlacedPush(s, s.(sems := s.sems[i := m]), SemQ(i), t);
  }

  lemma MutexQueueCore(s: State, i: nat, m: Mutex, t: TaskId)
    requires Core(s) && i < |s.mutexes| && t in s.tasks && t != IDLE && !On(s, t)
    requires MutexOk(m) && m.waiters == s.mutexes[i].waiters + [t]
    ensures var s1 := s.(mutexes := s.mutexes[i := m]);
            Core(s1) && Joins(s, s1, t)
  {
    PlacedPush(s, s.(mutexes := s.mutexes[i := m]), MutexQ(i), t);
  }

  /** A change of one semaphore that lets its first waiter go. */
  lemma SemReleaseCore(s: State, i: nat, m: Sem)
    requires Core(s) && i < |s.sems| && s.sems[i].waiters != []
    requires SemOk(m) && m.waiters == s.sems[i].waiters[1..]
    ensures var s1, t := s.(sems := s.sems[i := m]), s.sems[i].waiters[0];
            && Core(s1) && t in s.tasks && t != IDLE && t != s.cur
            && On(s, t) && Leaves(s, s1, t)
    requires s.cur in s.ready
  {
    var t := s.sems[i].waiters[0];
    assert t in ListAt(s, SemQ(i)) && s.cur in ListAt(s, ReadyQ);
    WithoutHead(s.sems[i].waiters);
    PlacedDrop(s, s.(sems := s.sems[i := m]), SemQ(i), t);
  }

  lemma MutexReleaseCore(s: State, i: nat, m: Mutex)
    requires Core(s) && i < |s.mutexes| && s.mutexes[i].waiters != []
    requires MutexOk(m) && m.waiters == s.mutexes[i].waiters[1..]
    requires s.cur in s.ready
    ensures var s1, t := s.(mutexes := s.mutexes[i := m]), s.mutexes[i].waiters[0];
            && Core(s1) && t in s.tasks && t != IDLE && t != s.cur
            && On(s, t) && Leaves(s, s1, t)
  {
    var t := s.mutexes[i].waiters[0];
    assert t in ListAt(s, MutexQ(i)) && s.cur in ListAt(s, ReadyQ);
    WithoutHead(s.mutexes[i].waiters);
    PlacedDrop(s, s.(mutexes := s.mutexes[i := m]), MutexQ(i), t);
  }

  lemma SameSyncCore(s: State, s': State)
    requires Core(s) && s'.(sems := s.sems, mutexes := s.mutexes) == s
    requires SyncOk(s')
    requires forall r :: ListAt(s', r) == ListAt(s, r)
    ensures Core(s') && SameOn(s, s')
  {
    PlacedSame(s, s');
  }

  lemma CurReady(s: State)
    requires Inv(s) && s.cur != IDLE
    ensures s.cur in s.ready && s.ready[0] == s.cur && On(s, s.cur)
  {
    assert s.cur in ListAt(s, ReadyQ);
  }

  // ----- rotation and slices

  lemma RotateCore(s: State)
    requires Core(s) && s.cur != IDLE && s.cur in s.ready && s.ready[0] == s.cur
    ensures Core(Rotate(s)) && s.cur in Rotate(s).ready
    ensures Rotate(s).ready == s.ready[1..] + [s.cur]
    ensures SameOn(s, Rotate(s))
  {
    assert s.cur in ListAt(s, ReadyQ);
    BlockCore(s);
    ReadyCore(SetBlock(s, s.cur), s.cur);
    WithoutHead(s.ready);
    LeavesThenJoins(s, SetBlock(s, s.cur), Rotate(s), s.cur);
  }

  lemma SliceCore(s: State, n: nat, slice: int)
    requires Core(s) && 1 <= slice <= TASK_TIME_SLICE_DEFAULT
    ensures s.cur in s.tasks
    ensures var s' := s.(ticks := n, tasks := s.tasks[s.cur := s.tasks[s.cur].(sliceTicks := slice)]);
            Core(s') && SameOn(s, s')
  {
    PlacedSame(s, s.(ticks := n, tasks := s.tasks[s.cur := s.tasks[s.cur].(sliceTicks := slice)]));
  }

  // ----- each operation

  /** What holds when an operation returns or calls the dispatcher. */
  ghost predicate Begun(s: State, e: Effect)
  {
    && Core(e.s) && e.s.tasks.Keys == s.tasks.Keys
    && (e.Done? ==> Settled(e.s) && Balanced(e.s))
    && (e.Dispatching? ==> e.s.ticks == e.s.walks + |e.s.pending| + if e.rest then 1 else 0)
    && (e.Dispatching? && e.rest ==> e.s.cur in e.s.ready && NextRun(e.s) != e.s.cur)
  }

  lemma CurKnown(s: State)
    requires Placed(s)
    ensures s.cur in s.tasks && IDLE in s.tasks
  {
  }

  /** The walk at the end of a timer interrupt. */
  lemma WalkBegun(s: State, s1: State)
    requires Core(s1) && s1.tasks.Keys == s.tasks.Keys && SameOn(s, s1)
    requires s1.ticks == s1.walks + |s1.pending| + 1
    ensures Begun(s, Dispatching(Walk(s1), false)) && SameOn(s, Walk(s1))
  {
    hide Placed, SlicesOk, SleepOk, SyncOk, On, SameOn;
    WalkCore(s1);
    WalkPlaced(s1);
    SameOnTrans(s, s1, Walk(s1));
  }

  lemma IdleTick(s: State)
    requires Inv(s) && s.cur == IDLE
    ensures s.ready == [] && s.pending == {}
  {
    HeadNotIdle(s);
  }

  lemma HeadNotIdle(s: State)
    requires Placed(s)
    ensures s.ready != [] ==> s.ready[0] != IDLE
  {
    assert s.ready != [] ==> s.ready[0] in ListAt(s, ReadyQ);
  }

  lemma ExpiredCore(s: State, r: State)
    requires Inv(s) && s.tasks[s.cur].sliceTicks == 1 && r == Refill(UseSlice(s))
    ensures Core(Rotate(r)) && SameOn(s, Rotate(r))
    ensures s.cur == IDLE ==> Rotate(r) == r && NextRun(r) == IDLE
    ensures s.cur != IDLE ==> s.cur in Rotate(r).ready && Rotate(r).ready == s.ready[1..] + [s.cur]
  {
    hide Placed, SyncOk, On, SameOn;
    CurKnown(s);
    assert r.tasks == s.tasks[s.cur := s.tasks[s.cur].(sliceTicks := s.tasks[s.cur].timeTicks)];
    SliceCore(s, s.ticks + 1, s.tasks[s.cur].timeTicks);
    if s.cur == IDLE {
      IdleTick(s);
    } else {
      CurReady(s);
      RotateCore(r);
      SameOnTrans(s, r, Rotate(r));
    }
  }

  lemma TickBegun(s: State)
    requires Inv(s)
    ensures Known(s) && Begun(s, DoTick(s)) && SameOn(s, DoTick(s).s)
  {
    hide Placed, SleepOk, SyncOk, On, SameOn, Walk;
    PlacedKnown(s);
    var s0 := UseSlice(s);
    if s0.tasks[s.cur].sliceTicks != 0 {
      SliceCore(s, s.ticks + 1, s0.tasks[s.cur].sliceTicks);
      WalkBegun(s, s0);
    } else {
      ExpiredCore(s, Refill(s0));
      var s1 := Rotate(Refill(s0));
      if NextRun(s1) == s1.cur {
        WalkBegun(s, s1);
      }
    }
  }

  lemma YieldBegun(s: State)
    requires Inv(s) && s.cur != IDLE
    ensures Known(s) && Begun(s, DoYield(s)) && SameOn(s, DoYield(s).s)
  {
    hide Placed, SleepOk, SyncOk, On, SameOn;
    PlacedKnown(s);
    CurReady(s);
    RotateCore(s);
    SameOnRefl(s);
  }

  /** A sleep that rounds to no ticks at all takes the caller off every list. */
  lemma SleepBegun(s: State, ms: nat)
    requires Inv(s) && s.cur != IDLE
    ensures Known(s) && Begun(s, DoSleep(s, ms))
    ensures if SleepTicks(ms) > 0 then SameOn(s, DoSleep(s, ms).s) else Leaves(s, DoSleep(s, ms).s, s.cur)
  {
    hide Placed, SlicesOk, SleepOk, SyncOk, On, Leaves, Joins, SameOn;
    PlacedKnown(s);
    CurReady(s);
    BlockCore(s);
    var s1 := SetBlock(s, s.cur);
    if SleepTicks(ms) > 0 {
      LeftIsOff(s, s1, s.cur);
      var s2 := SetSleep(s1, s.cur, SleepTicks(ms));
      SleepCore(s1, s.cur, SleepTicks(ms));
      LeavesThenJoins(s, s1, s2, s.cur);
    }
  }

  lemma LeftIsOff(s: State, s1: State, t: TaskId)
    requires Leaves(s, s1, t)
    ensures !On(s1, t)
  {
  }

  lemma SemWaitBegun(s: State, i: nat)
    requires Inv(s) && s.cur != IDLE && i < |s.sems|
    ensures Known(s) && Begun(s, DoSemWait(s, i)) && SameOn(s, DoSemWait(s, i).s)
  {
    hide Placed, SlicesOk, SleepOk, On, Leaves, Joins, SameOn;
    PlacedKnown(s);
    CurReady(s);
    var m := s.sems[i];
    if m.count > 0 {
      SameSyncCore(s, DoSemWait(s, i).s);
    } else {
      BlockCore(s);
      var s1 := SetBlock(s, s.cur);
      LeftIsOff(s, s1, s.cur);
      var m1 := m.(waiters := m.waiters + [s.cur], queued := m.queued + [s.cur]);
      SemQueueCore(s1, i, m1, s.cur);
      LeavesThenJoins(s, s1, s1.(sems := s1.sems[i := m1]), s.cur);
    }
  }

  /** Letting a waiter go. */
  lemma ReleaseBegun(s: State, s1: State, t: TaskId)
    requires Inv(s) && s.cur != IDLE
    requires s1 == s.(sems := s1.sems, mutexes := s1.mutexes) && Core(s1)
    requires t in s.tasks && t != IDLE && On(s, t) && Leaves(s, s1, t)
    ensures Begun(s, Dispatching(SetReady(s1, t), false)) && SameOn(s, SetReady(s1, t))
  {
    hide Placed, SlicesOk, SleepOk, SyncOk, On, Leaves, Joins, SameOn;
    LeftIsOff(s, s1, t);
    ReadyCore(s1, t);
    LeavesThenJoins(s, s1, SetReady(s1, t), t);
  }

  lemma SemNotifyBegun(s: State, i: nat)
    requires Inv(s) && Enabled(s, SemNotify(i))
    ensures Known(s) && Begun(s, DoSemNotify(s, i)) && SameOn(s, DoSemNotify(s, i).s)
  {
    hide Placed, SlicesOk, SleepOk, On, Leaves, SameOn;
    PlacedKnown(s);
    CurReady(s);
    var m := s.sems[i].(notifies := s.sems[i].notifies + 1);
    if m.waiters != [] {
      var t := m.waiters[0];
      var m1 := m.(waiters := m.waiters[1..], served := m.served + [t], passes := m.passes + 1);
      assert m.served + m.waiters == m1.served + m1.waiters;
      SemReleaseCore(s, i, m1);
      ReleaseBegun(s, s.(sems := s.sems[i := m1]), t);
    } else {
      SameSyncCore(s, DoSemNotify(s, i).s);
    }
  }

  lemma LockBegun(s: State, i: nat)
    requires Inv(s) && Enabled(s, Lock(i))
    ensures Known(s) && Begun(s, DoLock(s, i)) && SameOn(s, DoLock(s, i).s)
  {
    hide Placed, SlicesOk, SleepOk, On, Leaves, Joins, SameOn;
    PlacedKnown(s);
    CurReady(s);
    var m := s.mutexes[i];
    if m.lockedCount == 0 || m.owner == Some(s.cur) {
      var s' := DoLock(s, i).s;
      assert forall t: TaskId :: Depth(s'.mutexes[i], t) == if t == s.cur then Depth(m, t) + 1 else Depth(m, t);
      SameSyncCore(s, s');
    } else {
      BlockCore(s);
      var s1 := SetBlock(s, s.cur);
      LeftIsOff(s, s1, s.cur);
      var m1 := m.(waiters := m.waiters + [s.cur], queued := m.queued + [s.cur]);
      assert forall t: TaskId :: Depth(m1, t) == Depth(m, t);
      MutexQueueCore(s1, i, m1, s.cur);
      LeavesThenJoins(s, s1, s1.(mutexes := s1.mutexes[i := m1]), s.cur);
    }
  }

  lemma HandOverOk(m: Mutex, cur: TaskId)
    requires MutexOk(m) && m.owner == Some(cur) && m.lockedCount == 1 && m.waiters != [] && Distinct(m.waiters)
    ensures MutexOk(HandOver(m.(depth := Shallower(m, cur))))
  {
    var m1 := HandOver(m.(depth := Shallower(m, cur)));
    assert m.handed + m.waiters == m1.handed + m1.waiters;
    assert Depth(m, m.waiters[0]) == 0 && Depth(m, cur) == 1;
    forall x: TaskId ensures Depth(m1, x) == if x == m.waiters[0] then 1 else 0 {
      assert Depth(m, x) == if x == cur then 1 else 0;
    }
  }

  lemma WaitersDistinct(s: State, i: nat)
    requires Placed(s) && i < |s.mutexes|
    ensures Distinct(s.mutexes[i].waiters)
  {
    assert s.mutexes[i].waiters == ListAt(s, MutexQ(i));
  }

  lemma UnlockBegun(s: State, i: nat)
    requires Inv(s) && Enabled(s, Unlock(i))
    ensures Known(s) && Begun(s, DoUnlock(s, i)) && SameOn(s, DoUnlock(s, i).s)
  {
    hide Placed, SlicesOk, SleepOk, On, Leaves, SameOn;
    PlacedKnown(s);
    CurReady(s);
    var m := s.mutexes[i];
    if m.owner == Some(s.cur) && m.lockedCount == 1 && m.waiters != [] {
      var m1 := HandOver(m.(depth := Shallower(m, s.cur)));
      WaitersDistinct(s, i);
      HandOverOk(m, s.cur);
      MutexReleaseCore(s, i, m1);
      ReleaseBegun(s, s.(mutexes := s.mutexes[i := m1]), m.waiters[0]);
    } else {
      var s' := DoUnlock(s, i).s;
      assert forall t: TaskId ::
          Depth(s'.mutexes[i], t) == if t == s.cur && Depth(m, t) > 0 then Depth(m, t) - 1 else Depth(m, t);
      SameSyncCore(s, s');
    }
  }

  lemma InitBegun(s: State, op: Op)
    requires Inv(s) && Enabled(s, op) && (op.SemInit? || op.MutexInit?)
    ensures Known(s) && Begun(s, Begin(s, op)) && SameOn(s, Begin(s, op).s)
  {
    PlacedKnown(s);
    SameSyncCore(s, Begin(s, op).s);
  }

  lemma SpawnStep(s: State, t: TaskId)
    requires Inv(s) && s.cur != IDLE && t !in s.tasks
    ensures var s' := SetReady(s.(tasks := s.tasks[t := NEW_TCB]), t);
            Inv(s') && s'.tasks.Keys == s.tasks.Keys + {t} && Joins(s, s', t)
  {
    CurReady(s);
    var s1 := s.(tasks := s.tasks[t := NEW_TCB]);
    assert t !in ListAt(s, SleepQ);
    PlacedSame(s, s1);
    assert !On(s, t);
    ReadyCore(s1, t);
  }

  // ----- every step

  /** A sleep that rounds to zero ticks. */
  predicate NullSleep(op: Op)
  {
    op.SleepMs? && SleepTicks(op.ms) == 0
  }

  lemma AllBegun(s: State, op: Op)
    requires Inv(s) && Enabled(s, op) && !op.Spawn?
    ensures Known(s) && Begun(s, Begin(s, op))
    ensures if NullSleep(op) then Leaves(s, Begin(s, op).s, s.cur) else SameOn(s, Begin(s, op).s)
  {
    hide Inv, Begun, SameOn, Leaves;
    match op
    case Tick => TickBegun(s);
    case Yield => YieldBegun(s);
    case SleepMs(ms) => SleepBegun(s, ms);
    case SemInit(_) => InitBegun(s, op);
    case SemWait(i) => SemWaitBegun(s, i);
    case SemNotify(i) => SemNotifyBegun(s, i);
    case MutexInit => InitBegun(s, op);
    case Lock(i) => LockBegun(s, i);
    case Unlock(i) => UnlockBegun(s, i);
  }

  /** Every operation keeps the invariant; only a null sleep takes its caller off all lists. */
  lemma StepInv(s: State, op: Op)
    requires Inv(s) && Enabled(s, op)
    ensures Known(s) && Inv(Step(s, op))
    ensures Step(s, op).tasks.Keys == s.tasks.Keys + if op.Spawn? then {op.task} else {}
    ensures if op.Spawn? then Joins(s, Step(s, op), op.task)
            else if NullSleep(op) then Leaves(s, Step(s, op), s.cur)
            else SameOn(s, Step(s, op))
  {
    hide *;
    InvKnown(s);
    BeginKnown(s, op);
    StepEnds(s, op);
    if op.Spawn? {
      SpawnIs(s, op.task);
      SpawnStep(s, op.task);
    } else {
      AllBegun(s, op);
      var e := Begin(s, op);
      BegunFacts(s, e);
      if e.Dispatching? {
        DispatchInv(e.s, e.rest);
        if NullSleep(op) {
          LeavesSame(s, e.s, Dispatch(e.s, e.rest), s.cur);
        } else {
          SameOnTrans(s, e.s, Dispatch(e.s, e.rest));
        }
      }
    }
  }

  lemma InvKnown(s: State)
    requires Inv(s)
    ensures Known(s) && Placed(s)
  {
    PlacedKnown(s);
  }

  /** How a step ends. */
  lemma StepEnds(s: State, op: Op)
    requires Known(s) && Enabled(s, op) && Known(Begin(s, op).s)
    ensures Step(s, op) == match Begin(s, op) case Done(s1) => s1 case Dispatching(s1, rest) => Dispatch(s1, rest)
  {
  }

  lemma SpawnIs(s: State, t: TaskId)
    requires Known(s) && Enabled(s, Spawn(t))
    ensures s.cur != IDLE && t !in s.tasks
    ensures Begin(s, Spawn(t)) == Done(SetReady(s.(tasks := s.tasks[t := NEW_TCB]), t))
  {
  }

  lemma BegunFacts(s: State, e: Effect)
    requires Begun(s, e)
    ensures e.s.tasks.Keys == s.tasks.Keys
    ensures e.Done? ==> Inv(e.s)
    ensures e.Dispatching? ==>
              && Core(e.s) && e.s.ticks == e.s.walks + |e.s.pending| + (if e.rest then 1 else 0)
              && (e.rest ==> e.s.cur in e.s.ready && NextRun(e.s) != e.s.cur)
  {
  }

  lemma LeavesSame(s: State, s1: State, s2: State, t: TaskId)
    requires Leaves(s, s1, t) && SameOn(s1, s2)
    ensures Leaves(s, s2, t)
  {
  }
}
