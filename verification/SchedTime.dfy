/** Time: how long a task sleeps and how long a ready task waits for the processor. */
module SchedTime {
  import opened Ints
  import opened Seqs
  import opened SchedModel
  import opened SchedInv
  import opened SchedSteps
  import opened SchedRuns

  // ----- waiting for the processor

  /** The slice ticks of the tasks before `t` in `l`. */
  function AheadIn(l: seq<TaskId>, tasks: map<TaskId, Tcb>, t: TaskId): int
  {
    if l == [] || l[0] == t then 0
    else (if l[0] in tasks then tasks[l[0]].sliceTicks else 0) + AheadIn(l[1..], tasks, t)
  }

  ghost function Ahead(s: State, t: TaskId): int
  {
    AheadIn(s.ready, s.tasks, t)
  }

  lemma {:induction false} AheadAppend(l: seq<TaskId>, more: seq<TaskId>, tasks: map<TaskId, Tcb>, t: TaskId)
    requires t in l
    ensures AheadIn(l + more, tasks, t) == AheadIn(l, tasks, t)
  {
    if l[0] != t {
      assert (l + more)[1..] == l[1..] + more;
      AheadAppend(l[1..], more, tasks, t);
    }
  }

  ghost predicate SameSlices(tasks: map<TaskId, Tcb>, tasks': map<TaskId, Tcb>)
  {
    tasks.Keys == tasks'.Keys && forall t :: t in tasks ==> tasks'[t].sliceTicks == tasks[t].sliceTicks
  }

  lemma {:induction false} AheadSame(l: seq<TaskId>, tasks: map<TaskId, Tcb>, tasks': map<TaskId, Tcb>, t: TaskId)
    requires forall x :: x in l && x != t ==> x in tasks && x in tasks' && tasks'[x].sliceTicks == tasks[x].sliceTicks
    ensures AheadIn(l, tasks', t) == AheadIn(l, tasks, t)
  {
    if l != [] && l[0] != t {
      AheadSame(l[1..], tasks, tasks', t);
    }
  }

  lemma {:induction false} AheadBound(l: seq<TaskId>, tasks: map<TaskId, Tcb>, t: TaskId, k: nat)
    requires k < |l| && l[k] == t
    requires forall x :: x in l ==> x in tasks && 1 <= tasks[x].sliceTicks <= TASK_TIME_SLICE_DEFAULT
    ensures 0 <= AheadIn(l, tasks, t) <= TASK_TIME_SLICE_DEFAULT * k
    ensures l[0] != t ==> AheadIn(l, tasks, t) > 0
  {
    if l[0] != t {
      if l[1] == t {
        assert AheadIn(l[1..], tasks, t) == 0;
      } else {
        AheadBound(l[1..], tasks, t, k - 1);
      }
    }
  }

  /** `t` is still ready, and what is ahead of it has shrunk by at least `n`. */
  ghost predicate Nearer(s: State, s': State, t: TaskId, n: nat)
  {
    t in s'.ready && Ahead(s', t) + n <= Ahead(s, t)
  }

  lemma WalkNearer(s: State, t: TaskId)
    requires Core(s) && t in s.ready
    ensures Nearer(s, Walk(s), t, 0)
  {
    AheadAppend(s.ready, Due(s.sleeping, s.tasks), s.tasks, t);
    assert forall x :: x in s.ready ==> x in ListAt(s, ReadyQ);
    DueMembers(s.sleeping, s.tasks);
    assert forall x :: x in Due(s.sleeping, s.tasks) ==> x in s.tasks;
    AheadSame(Walk(s).ready, s.tasks, Walk(s).tasks, t);
  }

  lemma SwitchNearer(s: State, to: TaskId, rest: bool, t: TaskId)
    requires Core(s) && t in s.ready && to in s.tasks
    ensures Nearer(s, Switch(s, to, rest), t, 0)
  {
    assert forall x :: x in s.ready ==> x in ListAt(s, ReadyQ);
    AheadSame(s.ready, s.tasks, Switch(s, to, rest).tasks, t);
  }

  lemma DispatchNearer(s: State, rest: bool, t: TaskId)
    requires Core(s) && t in s.ready && (rest ==> s.cur in s.ready)
    ensures Known(s) && Nearer(s, Dispatch(s, rest), t, 0)
  {
    hide Placed, SlicesOk, SleepOk, SyncOk, Ahead, Dispatch, Walk;
    DispatchOnce(s, rest);
    var to := NextRun(s);
    if to != s.cur {
      SwitchCore(s, rest);
      SwitchNearer(s, to, rest, t);
      if to in s.pending { WalkNearer(Switch(s, to, rest), t); }
    }
  }

  lemma BlockNearer(s: State, t: TaskId)
    requires Inv(s) && s.cur != IDLE && t in s.ready && t != s.cur
    ensures s.cur in s.tasks && Nearer(s, SetBlock(s, s.cur), t, s.tasks[s.cur].sliceTicks)
  {
    CurReady(s);
    WithoutHead(s.ready);
  }

  lemma PushNearer(s: State, x: TaskId, t: TaskId)
    requires Placed(s) && t in s.ready && x in s.tasks
    ensures Nearer(s, SetReady(s, x), t, 0)
  {
    AheadAppend(s.ready, [x], s.tasks, t);
    assert forall y :: y in s.ready ==> y in ListAt(s, ReadyQ);
    if x != IDLE { AheadSame(s.ready + [x], s.tasks, SetReady(s, x).tasks, t); }
  }

  lemma ReadyMeansBusy(s: State, t: TaskId)
    requires Inv(s) && t in s.ready
    ensures s.cur != IDLE && s.cur in s.tasks && s.cur == s.ready[0] && s.cur !in s.ready[1..]
    ensures forall y :: y in s.ready ==> y in s.tasks
  {
    assert s.ready[0] in ListAt(s, ReadyQ);
    assert forall y :: y in s.ready ==> y in ListAt(s, ReadyQ);
    assert Distinct(ListAt(s, ReadyQ));
  }

  lemma UseNearer(s: State, t: TaskId)
    requires Inv(s) && t in s.ready && t != s.cur && s.tasks[s.cur].sliceTicks > 1
    ensures Core(UseSlice(s)) && Nearer(s, UseSlice(s), t, 1)
  {
    hide Placed, SleepOk, SyncOk;
    ReadyMeansBusy(s, t);
    SliceCore(s, s.ticks + 1, s.tasks[s.cur].sliceTicks - 1);
    AheadSame(s.ready[1..], s.tasks, UseSlice(s).tasks, t);
  }

  lemma ExpireNearer(s: State, t: TaskId)
    requires Inv(s) && t in s.ready && t != s.cur && s.tasks[s.cur].sliceTicks == 1
    ensures var s1 := Rotate(Refill(UseSlice(s))); Core(s1) && Nearer(s, s1, t, 1)
  {
    hide Placed, SleepOk, SyncOk, Rotate;
    ReadyMeansBusy(s, t);
    ExpiredCore(s, Refill(UseSlice(s)));
    var s1 := Rotate(Refill(UseSlice(s)));
    RotateSlices(Refill(UseSlice(s)));
    AheadSame(s.ready[1..], s.tasks, s1.tasks, t);
    AheadAppend(s.ready[1..], [s.cur], s1.tasks, t);
  }

  lemma RotateSlices(s: State)
    requires s.cur in s.tasks
    ensures SameSlices(s.tasks, Rotate(s).tasks)
  {
  }

  /** A slice is used or used up: what is ahead shrinks by one tick in either case. */
  lemma TickNearer(s: State, t: TaskId)
    requires Inv(s) && t in s.ready && t != s.cur
    ensures Known(s) && Nearer(s, DoTick(s).s, t, 1)
  {
    hide Placed, SleepOk, SyncOk, Rotate, Ahead, Walk, UseSlice;
    PlacedKnown(s);
    ReadyMeansBusy(s, t);
    SliceUsed(s);
    if s.tasks[s.cur].sliceTicks != 1 {
      UseNearer(s, t);
      WalkNearer(UseSlice(s), t);
    } else {
      ExpireNearer(s, t);
      WalkNearer(Rotate(Refill(UseSlice(s))), t);
    }
  }

  lemma SliceUsed(s: State)
    requires s.cur in s.tasks
    ensures s.cur in UseSlice(s).tasks && UseSlice(s).tasks[s.cur].sliceTicks == s.tasks[s.cur].sliceTicks - 1
    ensures UseSlice(s).cur == s.cur
  {
  }

  lemma BeginNearer(s: State, op: Op, t: TaskId)
    requires Inv(s) && Enabled(s, op) && t in s.ready && t != s.cur
    ensures Known(s) && Nearer(s, Begin(s, op).s, t, if op.Tick? then 1 else 0)
  {
    PlacedKnown(s);
    if op.Tick? {
      TickNearer(s, t);
    } else {
      hide SleepOk, SyncOk, HandOver, Shallower, Deeper, DoTick;
      ReadyMeansBusy(s, t);
      BlockNearer(s, t);
      OtherNearer(s, op, t);
    }
  }

  lemma OtherNearer(s: State, op: Op, t: TaskId)
    requires Inv(s) && Known(s) && Enabled(s, op) && !op.Tick? && t in s.ready && t != s.cur
    requires s.cur in s.tasks && Nearer(s, SetBlock(s, s.cur), t, 0)
    ensures Nearer(s, Begin(s, op).s, t, 0)
  {
    hide SleepOk, SyncOk, HandOver, Shallower, Deeper, DoTick, SetBlock;
    assert forall y :: y in s.ready ==> y in ListAt(s, ReadyQ);
    var b := SetBlock(s, s.cur);
    BlockFrame(s);
    match op
    case Yield =>
      AheadAppend(b.ready, [s.cur], s.tasks, t);
      AheadSame(b.ready + [s.cur], s.tasks, Rotate(s).tasks, t);
    case SleepMs(ms) =>
      AheadSame(b.ready, s.tasks, SetSleep(b, s.cur, SleepTicks(ms)).tasks, t);
    case SemNotify(i) =>
      if s.sems[i].waiters != [] {
        assert s.sems[i].waiters[0] in s.tasks;
        PushNearer(s, s.sems[i].waiters[0], t);
      }
    case Unlock(i) =>
      if s.mutexes[i].waiters != [] {
        assert s.mutexes[i].waiters[0] in s.tasks;
        PushNearer(s, s.mutexes[i].waiters[0], t);
      }
    case Spawn(x) =>
      AheadAppend(s.ready, [x], s.tasks, t);
      AheadSame(s.ready + [x], s.tasks[x := NEW_TCB], Begin(s, op).s.tasks, t);
      AheadSame(s.ready, s.tasks, s.tasks[x := NEW_TCB], t);
      AheadAppend(s.ready, [x], s.tasks[x := NEW_TCB], t);
    case _ =>
  }

  lemma BlockFrame(s: State)
    requires s.cur != IDLE
    ensures var b := SetBlock(s, s.cur);
            b.tasks == s.tasks && b.sleeping == s.sleeping && b.cur == s.cur && b == s.(ready := b.ready)
    ensures forall x :: x in SetBlock(s, s.cur).ready ==> x in s.ready
  {
    WithoutSubset(s.ready, s.cur);
  }

  lemma StepNearer(s: State, op: Op, t: TaskId)
    requires Inv(s) && Enabled(s, op) && t in s.ready && t != s.cur
    ensures Known(s) && Nearer(s, Step(s, op), t, if op.Tick? then 1 else 0)
  {
    hide Placed, SlicesOk, SleepOk, SyncOk, Ahead, Begin, Dispatch;
    PlacedKnown(s);
    BeginKnown(s, op);
    BeginNearer(s, op, t);
    var e := Begin(s, op);
    if e.Dispatching? {
      SpawnReturns(s, op);
      AllBegun(s, op);
      DispatchNearer(e.s, e.rest, t);
    }
  }

  lemma SpawnReturns(s: State, op: Op)
    requires Known(s) && Enabled(s, op)
    ensures op.Spawn? ==> Begin(s, op).Done?
  {
  }

  /** `t` is the current task at some point of the run. */
  ghost predicate RunsDuring(s: State, ops: seq<Op>, t: TaskId)
  {
    exists j :: 0 <= j <= |ops| && Legal(s, ops[..j]) && Exec(s, ops[..j]).cur == t
  }

  lemma {:induction false} RunsWithinAhead(s: State, ops: seq<Op>, t: TaskId)
    requires Inv(s) && Legal(s, ops) && t in s.ready && NumTicks(ops) >= Ahead(s, t)
    ensures RunsDuring(s, ops, t)
    decreases |ops|
  {
    if s.cur == t {
      assert Legal(s, ops[..0]) && Exec(s, ops[..0]).cur == t;
    } else {
      var k :| 0 <= k < |s.ready| && s.ready[k] == t;
      ReadyMeansBusy(s, t);
      AheadBound(s.ready, s.tasks, t, k);
      StepInv(s, ops[0]);
      StepNearer(s, ops[0], t);
      hide Inv, Ahead, Enabled, Step, Begin;
      RunsWithinAhead(Step(s, ops[0]), ops[1..], t);
      RunsLater(s, ops, t);
    }
  }

  lemma RunsLater(s: State, ops: seq<Op>, t: TaskId)
    requires ops != [] && Legal(s, ops) && RunsDuring(Step(s, ops[0]), ops[1..], t)
    ensures RunsDuring(s, ops, t)
  {
    hide Step, Enabled, Known;
    var s1 := Step(s, ops[0]);
    var j :| 0 <= j <= |ops[1..]| && Legal(s1, ops[1..][..j]) && Exec(s1, ops[1..][..j]).cur == t;
    assert ops[..j + 1][1..] == ops[1..][..j];
    assert Legal(s, ops[..j + 1]) && Exec(s, ops[..j + 1]).cur == t;
  }

  /**
   * A task at position `k` of the ready list runs before `10 * k` timer interrupts have passed,
   * whatever the other tasks do. What is ahead of it never grows and shrinks at every interrupt.
   */
  lemma BoundedWaiting(s: State, ops: seq<Op>, t: TaskId, k: nat)
    requires Inv(s) && Legal(s, ops) && k < |s.ready| && s.ready[k] == t
    requires NumTicks(ops) >= 10 * k
    ensures RunsDuring(s, ops, t)
  {
    ReadyMeansBusy(s, t);
    AheadBound(s.ready, s.tasks, t, k);
    RunsWithinAhead(s, ops, t);
  }

  // ----- sleeping

  /** `t` sleeps in both states, with the same ticks left, and no walk happened. */
  ghost predicate Quiet(s: State, s': State, t: TaskId)
  {
    && s'.walks == s.walks
    && t in s.sleeping && t in s'.sleeping && t in s.tasks && t in s'.tasks
    && s'.tasks[t].sleepTicks == s.tasks[t].sleepTicks
  }

  /** `n` walks happened: `t` has that many ticks less, or became ready at the last of them. */
  ghost predicate Elapsed(s: State, s': State, t: TaskId, n: nat)
  {
    && s'.walks == s.walks + n
    && t in s.sleeping && t in s.tasks && t in s'.tasks
    && n <= s.tasks[t].sleepTicks
    && (if n < s.tasks[t].sleepTicks
        then t in s'.sleeping && s'.tasks[t].sleepTicks == s.tasks[t].sleepTicks - n
        else t in s'.ready)
  }

  lemma {:induction false} DueWhole(l: seq<TaskId>, tasks: map<TaskId, Tcb>, t: TaskId)
    requires t in l
    ensures if t in tasks && tasks[t].sleepTicks == 1 then t in Due(l, tasks) else t in NotDue(l, tasks)
  {
    if l[0] != t { DueWhole(l[1..], tasks, t); }
  }

  lemma WalkElapsed(s: State, t: TaskId)
    requires Core(s) && t in s.sleeping
    ensures Elapsed(s, Walk(s), t, 1)
  {
    assert t in ListAt(s, SleepQ);
    DueWhole(s.sleeping, s.tasks, t);
  }

  /** A dispatch walks at most once, and exactly when it resumes a task suspended before its walk. */
  lemma DispatchElapsed(s: State, rest: bool, t: TaskId)
    requires Core(s) && t in s.sleeping && (rest ==> s.cur in s.ready)
    ensures Known(s)
    ensures Elapsed(s, Dispatch(s, rest), t, if NextRun(s) != s.cur && NextRun(s) in s.pending then 1 else 0)
  {
    DispatchOnce(s, rest);
    hide SyncOk, SlicesOk, Dispatch;
    assert t in ListAt(s, SleepQ);
    var to := NextRun(s);
    if to != s.cur {
      SwitchCore(s, rest);
      if to in s.pending { WalkElapsed(Switch(s, to, rest), t); }
    }
  }

  lemma DispatchWakesStay(s: State, rest: bool, t: TaskId)
    requires Core(s) && t in s.ready && (rest ==> s.cur in s.ready)
    requires NextRun(s) == s.cur || NextRun(s) !in s.pending
    ensures Known(s) && t in Dispatch(s, rest).ready && Dispatch(s, rest).walks == s.walks
  {
    DispatchOnce(s, rest);
  }

  lemma SleeperFacts(s: State, t: TaskId)
    requires Inv(s) && t in s.sleeping
    ensures t in s.tasks && t != IDLE && t != s.cur && t !in s.ready && On(s, t)
    ensures s.tasks[t].sleepTicks >= 1
  {
    assert t in ListAt(s, SleepQ);
    assert s.ready != [] ==> s.ready[0] in ListAt(s, ReadyQ);
    assert t in s.ready ==> t in ListAt(s, ReadyQ);
  }

  lemma OtherQuiet(s: State, op: Op, t: TaskId)
    requires Known(s) && Enabled(s, op) && !op.Tick?
    requires t in s.sleeping && t in s.tasks && t != s.cur
    ensures Quiet(s, Begin(s, op).s, t)
  {
    hide Deeper, Shallower, DoTick;
  }

  /** A timer interrupt that walks at once does not walk a second time in its dispatch. */
  lemma TickWalksOnce(s: State)
    requires Inv(s)
    ensures Known(s)
    ensures var e := DoTick(s); !e.rest ==> NextRun(e.s) == e.s.cur || NextRun(e.s) !in e.s.pending
  {
    PlacedKnown(s);
    var s0 := UseSlice(s);
    if s.cur == IDLE {
      IdleTick(s);
    } else {
      CurReady(s);
    }
  }

  lemma TickElapsed(s: State, t: TaskId)
    requires Inv(s) && t in s.sleeping
    ensures Known(s)
    ensures var e := DoTick(s); if e.rest then Quiet(s, e.s, t) else Elapsed(s, e.s, t, 1)
  {
    hide Placed, SleepOk, SyncOk, Walk;
    PlacedKnown(s);
    SleeperFacts(s, t);
    var s0 := UseSlice(s);
    if s0.tasks[s.cur].sliceTicks != 0 {
      SliceCore(s, s.ticks + 1, s0.tasks[s.cur].sliceTicks);
      WalkElapsed(s0, t);
    } else {
      ExpiredCore(s, Refill(s0));
      WalkElapsed(Rotate(Refill(s0)), t);
    }
  }

  lemma TickIsDoTick(s: State)
    requires Known(s)
    ensures Begin(s, Tick) == DoTick(s) && DoTick(s).Dispatching?
  {
  }

  lemma AfterQuiet(s: State, x: State, rest: bool, t: TaskId)
    requires Core(x) && Quiet(s, x, t) && (rest ==> x.cur in x.ready)
    ensures Known(x)
    ensures var s' := Dispatch(x, rest);
            s.walks <= s'.walks <= s.walks + 1 && Elapsed(s, s', t, s'.walks - s.walks)
  {
    hide Placed, SlicesOk, SyncOk, Dispatch;
    SleepingTicks(x, t);
    DispatchElapsed(x, rest, t);
  }

  lemma AfterWalk(s: State, x: State, t: TaskId)
    requires Core(x) && Elapsed(s, x, t, 1) && (NextRun(x) == x.cur || NextRun(x) !in x.pending)
    ensures Known(x) && Elapsed(s, Dispatch(x, false), t, 1)
  {
    hide Placed, SlicesOk, SyncOk, Dispatch;
    DispatchInKeys(x);
    if t in x.sleeping {
      SleepingTicks(x, t);
      DispatchElapsed(x, false, t);
    }
    if t in x.ready {
      DispatchWakesStay(x, false, t);
    }
  }

  lemma SleepingTicks(s: State, t: TaskId)
    requires Core(s) && t in s.sleeping
    ensures t in s.tasks && s.tasks[t].sleepTicks >= 1 && t !in s.ready
  {
    assert t in ListAt(s, SleepQ);
    assert t in s.ready ==> t in ListAt(s, ReadyQ);
  }

  lemma DispatchInKeys(s: State)
    requires Core(s)
    ensures Known(s) && Dispatch(s, false).tasks.Keys == s.tasks.Keys
  {
    DispatchOnce(s, false);
  }

  lemma TickStepIs(s: State)
    requires Inv(s)
    ensures Known(s) && Known(DoTick(s).s) && DoTick(s).Dispatching?
    ensures Step(s, Tick) == Dispatch(DoTick(s).s, DoTick(s).rest)
    ensures Core(DoTick(s).s) && (DoTick(s).rest ==> DoTick(s).s.cur in DoTick(s).s.ready)
  {
    PlacedKnown(s);
    hide Core, Placed, Dispatch, DoTick, SameOn, Begin;
    BeginKnown(s, Tick);
    TickIsDoTick(s);
    TickBegun(s);
  }

  lemma TickStepElapsed(s: State, t: TaskId)
    requires Inv(s) && t in s.sleeping
    ensures Known(s) && s.walks <= Step(s, Tick).walks <= s.walks + 1
    ensures Elapsed(s, Step(s, Tick), t, Step(s, Tick).walks - s.walks)
  {
    hide *;
    TickStepIs(s);
    TickWalksOnce(s);
    TickElapsed(s, t);
    var e := DoTick(s);
    if e.rest {
      AfterQuiet(s, e.s, true, t);
    } else {
      AfterWalk(s, e.s, t);
      ElapsedWalks(s, Dispatch(e.s, false), t, 1);
    }
  }

  lemma ElapsedWalks(s: State, s': State, t: TaskId, n: nat)
    requires Elapsed(s, s', t, n)
    ensures s'.walks == s.walks + n
  {
  }

  /** The walks a step completes: none or one. */
  lemma StepElapsed(s: State, op: Op, t: TaskId)
    requires Inv(s) && Enabled(s, op) && t in s.sleeping
    ensures Known(s) && s.walks <= Step(s, op).walks <= s.walks + 1
    ensures Elapsed(s, Step(s, op), t, Step(s, op).walks - s.walks)
  {
    hide *;
    if op.Tick? {
      TickStepElapsed(s, t);
    } else {
      OtherElapsed(s, op, t);
    }
  }

  lemma OtherElapsed(s: State, op: Op, t: TaskId)
    requires Inv(s) && Enabled(s, op) && t in s.sleeping && !op.Tick?
    ensures Known(s) && s.walks <= Step(s, op).walks <= s.walks + 1
    ensures Elapsed(s, Step(s, op), t, Step(s, op).walks - s.walks)
  {
    hide *;
    InvKnown(s);
    SleeperFacts(s, t);
    BeginKnown(s, op);
    StepEnds(s, op);
    OtherQuiet(s, op, t);
    var e := Begin(s, op);
    if e.Dispatching? {
      SpawnReturns(s, op);
      AllBegun(s, op);
      BegunFacts(s, e);
      AfterQuiet(s, e.s, e.rest, t);
    } else {
      StillQuiet(s, e.s, t);
    }
  }

  lemma StillQuiet(s: State, s': State, t: TaskId)
    requires Inv(s) && Quiet(s, s', t)
    ensures Elapsed(s, s', t, 0) && s'.walks == s.walks
  {
    SleeperFacts(s, t);
  }

  // ----- a whole sleep

  /** After `n` of the walks since `s`, a sleep of `total` ticks begun in `s`. */
  ghost predicate SleepGoesOn(s: State, e: State, t: TaskId, total: int)
  {
    && t in e.tasks && s.walks <= e.walks
    && (e.walks - s.walks < total ==> t in e.sleeping && e.tasks[t].sleepTicks == total - (e.walks - s.walks))
  }

  /** The sleeping step itself: its dispatch may already complete the first walk. */
  lemma SleepBegins(s: State, ms: nat)
    requires Inv(s) && s.cur != IDLE && ms < TWO_TO_32 && SleepTicks(ms) > 0
    ensures Known(s)
    ensures var s1 := Step(s, SleepMs(ms));
            && s.walks <= s1.walks <= s.walks + 1
            && SleepGoesOn(s, s1, s.cur, SleepTicks(ms))
            && (s1.walks - s.walks == SleepTicks(ms) ==> s.cur in s1.ready)
  {
    PlacedKnown(s);
    SleepBegun(s, ms);
    hide Placed, SlicesOk, SleepOk, SyncOk, Dispatch, SameOn, Begun;
    var e := DoSleep(s, ms);
    BeginKnown(s, SleepMs(ms));
    SleepPrepared(s, ms);
    DispatchElapsed(e.s, false, s.cur);
  }

  lemma SleepPrepared(s: State, ms: nat)
    requires Known(s) && s.cur != IDLE && SleepTicks(ms) > 0
    ensures var e := DoSleep(s, ms);
            && e.Dispatching? && !e.rest && e.s.walks == s.walks && s.cur in e.s.sleeping
            && s.cur in e.s.tasks && e.s.tasks[s.cur].sleepTicks == SleepTicks(ms)
  {
  }

  lemma {:induction false} SleepRun(s: State, s1: State, ops: seq<Op>, t: TaskId, total: int)
    requires Inv(s1) && Legal(s1, ops) && SleepGoesOn(s, s1, t, total)
    ensures SleepGoesOn(s, Exec(s1, ops), t, total)
    decreases |ops|
  {
    if ops != [] {
      var s2 := Step(s1, ops[0]);
      StepInv(s1, ops[0]);
      StepWalks(s1, ops[0]);
      if t in s1.sleeping {
        StepElapsed(s1, ops[0], t);
      }
      hide Inv, Step, Enabled, Known;
      SleepRun(s, s2, ops[1..], t, total);
    }
  }

  lemma StepWalks(s: State, op: Op)
    requires Inv(s) && Enabled(s, op)
    ensures Known(s) && s.walks <= Step(s, op).walks
  {
    PlacedKnown(s);
    hide Placed, SlicesOk, SleepOk, SyncOk, Begin, Dispatch, SameOn;
    BeginKnown(s, op);
    BeginWalks(s, op);
    var e := Begin(s, op);
    if e.Dispatching? {
      SpawnReturns(s, op);
      AllBegun(s, op);
      DispatchOnce(e.s, e.rest);
    }
  }

  lemma BeginWalks(s: State, op: Op)
    requires Known(s) && Enabled(s, op)
    ensures s.walks <= Begin(s, op).s.walks
  {
  }

  /** For every other duration the sleep is rounded up to whole ticks. */
  lemma SleepTicksRoundUp(ms: nat)
    requires 0 < ms <= 0xffff_fff6
    ensures SleepTicks(ms) > 0
    ensures 10 * (SleepTicks(ms) - 1) < ms <= 10 * SleepTicks(ms)
  {
  }

  /** A task that sleeps for `n` ticks is on the sleep list until `n` further walks are complete. */
  lemma SleepLasts(s: State, ms: nat, ops: seq<Op>)
    requires Inv(s) && s.cur != IDLE && ms < TWO_TO_32 && SleepTicks(ms) > 0
    requires Legal(s, [SleepMs(ms)] + ops)
    ensures SleepGoesOn(s, Exec(s, [SleepMs(ms)] + ops), s.cur, SleepTicks(ms))
  {
    var s1 := Step(s, SleepMs(ms));
    assert ([SleepMs(ms)] + ops)[1..] == ops;
    StepInv(s, SleepMs(ms));
    SleepBegins(s, ms);
    hide Inv, Step, Enabled, Known;
    SleepRun(s, s1, ops, s.cur, SleepTicks(ms));
  }

  /**
   * A run that begins with a sleep and whose last operation completes the `n`-th walk since then ends
   * with the sleeper ready. The timer has interrupted `n` times, less the walks outstanding at the start
   * and plus those outstanding at the end. The last operation may be the sleep itself.
   */
  lemma SleepEnds(s: State, ms: nat, ops: seq<Op>)
    requires Inv(s) && s.cur != IDLE && ms < TWO_TO_32 && SleepTicks(ms) > 0
    requires Legal(s, [SleepMs(ms)] + ops)
    requires var all := [SleepMs(ms)] + ops;
             After(s, all, |ops|).walks - s.walks < SleepTicks(ms) <= Exec(s, all).walks - s.walks
    ensures var all, e := [SleepMs(ms)] + ops, Exec(s, [SleepMs(ms)] + ops);
            && e.walks - s.walks == SleepTicks(ms)
            && s.cur in e.ready
            && NumTicks(all) == SleepTicks(ms) - |s.pending| + |e.pending|
  {
    hide *;
    var all := [SleepMs(ms)] + ops;
    var before, e := After(s, all, |ops|), Exec(s, all);
    AfterNext(s, all, |ops|);
    AfterEnds(s, all);
    RunBalance(s, all);
    assert all[0] == SleepMs(ms) && |all| == |ops| + 1;
    if ops == [] {
      SleepBegins(s, ms);
    } else {
      assert all[..|ops|] == [SleepMs(ms)] + ops[..|ops| - 1];
      SleepLasts(s, ms, ops[..|ops| - 1]);
      StillAsleep(s, before, s.cur, SleepTicks(ms));
      RunInv(s, all[..|ops|]);
      StepElapsed(before, all[|ops|], s.cur);
      Woken(s, before, e, s.cur, SleepTicks(ms));
    }
  }

  lemma StillAsleep(s: State, e: State, t: TaskId, total: int)
    requires SleepGoesOn(s, e, t, total) && e.walks - s.walks < total
    ensures t in e.sleeping
  {
  }

  /** The step that completes the last walk of a sleep. */
  lemma Woken(s: State, e: State, e': State, t: TaskId, total: int)
    requires SleepGoesOn(s, e, t, total) && e.walks - s.walks < total <= e'.walks - s.walks
    requires e.walks <= e'.walks <= e.walks + 1 && Elapsed(e, e', t, e'.walks - e.walks)
    ensures e'.walks - s.walks == total && t in e'.ready
  {
  }

  /** The interrupts of a run are its walks, less those outstanding at the start, plus those at the end. */
  lemma RunBalance(s: State, ops: seq<Op>)
    requires Inv(s) && Legal(s, ops)
    ensures Inv(Exec(s, ops))
    ensures NumTicks(ops) == Exec(s, ops).walks - s.walks - |s.pending| + |Exec(s, ops).pending|
  {
    RunInv(s, ops);
    RunTicks(s, ops);
    InvBalance(s);
    InvBalance(Exec(s, ops));
    hide Inv;
  }

  lemma InvBalance(s: State)
    requires Inv(s)
    ensures s.ticks == s.walks + |s.pending|
  {
  }

  // ----- every sleep ends

  /** The operation `j` of the run, counted from 1, is the one that wakes a sleep of `n` ticks begun with it. */
  ghost predicate WakesAt(s: State, ops: seq<Op>, j: nat, n: int)
    requires Legal(s, ops)
  {
    && 1 <= j <= |ops|
    && After(s, ops, j - 1).walks - s.walks < n
    && After(s, ops, j).walks - s.walks == n
    && s.cur in After(s, ops, j).ready
  }

  lemma {:induction false} WalksGrow(s: State, ops: seq<Op>)
    requires Inv(s) && Legal(s, ops)
    ensures s.walks <= Exec(s, ops).walks
    decreases |ops|
  {
    hide Inv, Enabled, Known, Step;
    if ops != [] {
      StepInv(s, ops[0]);
      StepWalks(s, ops[0]);
      WalksGrow(Step(s, ops[0]), ops[1..]);
    }
  }

  /** The operation that completes the `n`-th walk, if that many were completed by `k`. */
  lemma {:induction false} Crossing(s: State, ops: seq<Op>, n: int, k: nat) returns (j: nat)
    requires Legal(s, ops) && k <= |ops| && n > 0 && After(s, ops, k).walks - s.walks >= n
    ensures 1 <= j <= |ops| && After(s, ops, j - 1).walks - s.walks < n <= After(s, ops, j).walks - s.walks
  {
    hide *;
    AfterEnds(s, ops);
    if k > 0 && After(s, ops, k - 1).walks - s.walks >= n {
      j := Crossing(s, ops, n, k - 1);
    } else {
      j := k;
    }
  }

  /**
   * A sleep of `n` ticks ends during a run if and only if the timer interrupts of the run, with the
   * walks outstanding at its start, are at least `n` and the walks outstanding at its end.
   */
  lemma SleepEndsWhen(s: State, ms: nat, ops: seq<Op>)
    requires Inv(s) && s.cur != IDLE && ms < TWO_TO_32 && SleepTicks(ms) > 0
    requires Legal(s, [SleepMs(ms)] + ops)
    ensures var all, n := [SleepMs(ms)] + ops, SleepTicks(ms);
            (exists j :: WakesAt(s, all, j, n)) <==> NumTicks(all) + |s.pending| >= n + |Exec(s, all).pending|
  {
    hide *;
    var all, n := [SleepMs(ms)] + ops, SleepTicks(ms);
    RunBalance(s, all);
    AfterEnds(s, all);
    if Exec(s, all).walks - s.walks >= n {
      var j := Crossing(s, all, n, |all|);
      PrefixWakes(s, ms, ops, j);
    }
    if j :| WakesAt(s, all, j, n) {
      WakesGrow(s, all, j, n);
    }
  }

  lemma WakesGrow(s: State, ops: seq<Op>, j: nat, n: int)
    requires Inv(s) && Legal(s, ops) && WakesAt(s, ops, j, n)
    ensures Exec(s, ops).walks - s.walks >= n
  {
    hide Inv, Known, Enabled, Step, Legal, Exec, After;
    var e := After(s, ops, j);
    RunInv(s, ops[..j]);
    WalksGrow(e, ops[j..]);
  }

  lemma PrefixWakes(s: State, ms: nat, ops: seq<Op>, j: nat)
    requires Inv(s) && s.cur != IDLE && ms < TWO_TO_32 && SleepTicks(ms) > 0
    requires Legal(s, [SleepMs(ms)] + ops) && 1 <= j <= |ops| + 1
    requires var all := [SleepMs(ms)] + ops;
             After(s, all, j - 1).walks - s.walks < SleepTicks(ms) <= After(s, all, j).walks - s.walks
    ensures WakesAt(s, [SleepMs(ms)] + ops, j, SleepTicks(ms))
  {
    hide *;
    var all := [SleepMs(ms)] + ops;
    var up, e := all[..j], After(s, all, j);
    assert up == [SleepMs(ms)] + ops[..j - 1];
    AfterPrefix(s, all, j, j - 1);
    SleepEnds(s, ms, ops[..j - 1]);
    WakesHere(s, all, j, SleepTicks(ms));
  }

  lemma WakesHere(s: State, ops: seq<Op>, j: nat, n: int)
    requires Legal(s, ops) && 1 <= j <= |ops|
    requires After(s, ops, j - 1).walks - s.walks < n && After(s, ops, j).walks - s.walks == n && s.cur in After(s, ops, j).ready
    ensures WakesAt(s, ops, j, n)
  {
  }

  /** So every sleep ends: at the latest when the timer has interrupted `n` times and once more per task. */
  lemma SleepEndsInTime(s: State, ms: nat, ops: seq<Op>)
    requires Inv(s) && s.cur != IDLE && ms < TWO_TO_32 && SleepTicks(ms) > 0
    requires Legal(s, [SleepMs(ms)] + ops)
    requires NumTicks([SleepMs(ms)] + ops) >= SleepTicks(ms) + |Exec(s, [SleepMs(ms)] + ops).tasks|
    ensures exists j :: WakesAt(s, [SleepMs(ms)] + ops, j, SleepTicks(ms))
  {
    var all := [SleepMs(ms)] + ops;
    RunInv(s, all);
    PendingFew(Exec(s, all));
    hide Inv, WakesAt;
    SleepEndsWhen(s, ms, ops);
  }

  /**
   * In milliseconds: nobody is woken before the interrupts, 10 ms each, and the walks outstanding at the
   * start make up the time asked for; and everybody is by a tick more than that and one more per task.
   */
  lemma SleepInMilliseconds(s: State, ms: nat, ops: seq<Op>)
    requires Inv(s) && s.cur != IDLE && 0 < ms <= 0xffff_fff6 && Legal(s, [SleepMs(ms)] + ops)
    ensures forall j :: 1 <= j <= |ops| + 1 && WakesAt(s, [SleepMs(ms)] + ops, j, SleepTicks(ms)) ==>
              10 * (NumTicks(([SleepMs(ms)] + ops)[..j]) + |s.pending|) >= ms
    ensures 10 * NumTicks([SleepMs(ms)] + ops) >= ms + 9 + 10 * |Exec(s, [SleepMs(ms)] + ops).tasks| ==>
              exists j :: WakesAt(s, [SleepMs(ms)] + ops, j, SleepTicks(ms))
  {
    assert ms < TWO_TO_32;
    hide *;
    var all := [SleepMs(ms)] + ops;
    SleepTicksRoundUp(ms);
    forall j | 1 <= j <= |ops| + 1 && WakesAt(s, all, j, SleepTicks(ms)) ensures 10 * (NumTicks(all[..j]) + |s.pending|) >= ms {
      WalksAtWaking(s, all, j, SleepTicks(ms));
      RunBalance(s, all[..j]);
    }
    if 10 * NumTicks(all) >= ms + 9 + 10 * |Exec(s, all).tasks| {
      SleepEndsInTime(s, ms, ops);
    }
  }

  lemma WalksAtWaking(s: State, ops: seq<Op>, j: nat, n: int)
    requires Legal(s, ops) && WakesAt(s, ops, j, n)
    ensures j <= |ops| && Legal(s, ops[..j]) && Exec(s, ops[..j]).walks - s.walks == n
  {
  }

  lemma PendingFew(s: State)
    requires Inv(s)
    ensures |s.pending| <= |s.tasks|
  {
    forall t | t in s.pending ensures t in s.tasks.Keys {
      assert t in ListAt(s, ReadyQ);
    }
    SubsetSize(s.pending, s.tasks.Keys);
  }

  lemma {:induction false} SubsetSize<T>(a: set<T>, b: set<T>)
    requires a <= b
    ensures |a| <= |b|
  {
    if a != {} {
      var x :| x in a;
      SubsetSize(a - {x}, b - {x});
    }
  }
}
