/** Turns: who runs after each operation, who is ready, and how long a task keeps the processor. */
module SchedTurns {
  import opened Bits
  import opened Seqs
  import opened SchedModel
  import opened SchedInv
  import opened SchedSteps
  import opened SchedRuns
  import opened SchedTime

  // ----- one operation

  /** The operation takes the processor from its caller, or from the task that the timer interrupts. */
  ghost predicate GivesWay(s: State, op: Op)
    requires s.cur in s.tasks
  {
    match op
    case Tick => s.tasks[s.cur].sliceTicks == 1 && |s.ready| > 1
    case Yield => |s.ready| > 1
    case SleepMs(_) => true
    case SemWait(i) => i < |s.sems| && s.sems[i].count <= 0
    case Lock(i) => i < |s.mutexes| && s.mutexes[i].owner.Some? && s.mutexes[i].owner != Some(s.cur)
    case _ => false
  }

  /** The waiter that the operation makes ready. */
  ghost function Served(s: State, op: Op): seq<TaskId>
  {
    match op
    case SemNotify(i) => if i < |s.sems| && s.sems[i].waiters != [] then [s.sems[i].waiters[0]] else []
    case Unlock(i) =>
      if i < |s.mutexes| && s.mutexes[i].owner == Some(s.cur) && s.mutexes[i].lockedCount == 1 && s.mutexes[i].waiters != []
      then [s.mutexes[i].waiters[0]] else []
    case Spawn(t) => [t]
    case _ => []
  }

  /** The ready list after the operation, up to the sleepers that a walk in it wakes. */
  ghost function Line(s: State, op: Op): seq<TaskId>
    requires s.cur in s.tasks && s.ready != []
  {
    if op.Yield? || (op.Tick? && s.tasks[s.cur].sliceTicks == 1) then s.ready[1..] + [s.ready[0]]
    else if GivesWay(s, op) then s.ready[1..]
    else s.ready + Served(s, op)
  }

  /** From `x` to `e` nobody but sleepers of `x` was added to the ready list, and nobody at all without a walk. */
  ghost predicate OnlyWoken(x: State, e: State)
  {
    && x.ready <= e.ready
    && (forall k :: |x.ready| <= k < |e.ready| ==> e.ready[k] in x.sleeping)
    && (forall t :: t in e.sleeping ==> t in x.sleeping)
    && (e.walks == x.walks ==> e.ready == x.ready)
    && x.walks <= e.walks
  }

  /** The time slices of `e` are those of `x`. */
  ghost predicate SlicesKept(x: State, e: State)
  {
    && x.tasks.Keys <= e.tasks.Keys
    && forall t :: t in x.tasks ==>
         e.tasks[t].sliceTicks == x.tasks[t].sliceTicks && e.tasks[t].timeTicks == x.tasks[t].timeTicks
  }

  lemma WalkLine(s: State)
    requires Core(s)
    ensures OnlyWoken(s, Walk(s)) && SlicesKept(s, Walk(s)) && Walk(s).cur == s.cur
    ensures forall t :: t in s.ready ==> t in s.tasks && Walk(s).tasks[t].state == s.tasks[t].state
  {
    DueMembers(s.sleeping, s.tasks);
    forall t | t in s.ready ensures t in s.tasks && t !in s.sleeping {
      assert t in ListAt(s, ReadyQ);
      assert t in s.sleeping ==> t in ListAt(s, SleepQ);
    }
  }

  lemma DispatchLine(s: State, rest: bool)
    requires Core(s) && (rest ==> s.cur in s.ready)
    ensures Known(s)
    ensures var e := Dispatch(s, rest);
            && OnlyWoken(s, e) && SlicesKept(s, e) && e.cur == NextRun(s)
            && (e.cur != s.cur ==> e.cur in e.tasks && e.tasks[e.cur].state == Running)
  {
    hide SlicesOk, SleepOk, SyncOk, Dispatch, Walk;
    DispatchOnce(s, rest);
    var to := NextRun(s);
    if to != s.cur {
      SwitchCore(s, rest);
      var s1 := Switch(s, to, rest);
      if to in s.pending {
        WalkLine(s1);
      }
    }
  }

  lemma HeadOnce(s: State)
    requires Inv(s) && s.cur != IDLE
    ensures s.ready != [] && s.ready[0] == s.cur && s.cur !in s.ready[1..]
    ensures Without(s.ready, s.cur) == s.ready[1..]
  {
    CurReady(s);
    assert Distinct(ListAt(s, ReadyQ));
    WithoutHead(s.ready);
  }

  /** An operation other than a timer interrupt, up to its dispatch. */
  lemma BeginLine(s: State, op: Op)
    requires Inv(s) && Known(s) && Enabled(s, op) && !op.Tick?
    requires s.ready != [] && s.ready[0] == s.cur && Without(s.ready, s.cur) == s.ready[1..]
    ensures var x := Begin(s, op).s;
            && x.ready == Line(s, op) && x.cur == s.cur && x.walks == s.walks && SlicesKept(s, x)
            && (Begin(s, op).Dispatching? ==> !Begin(s, op).rest)
            && forall t :: t in x.sleeping ==> t in s.sleeping || (op.SleepMs? && t == s.cur)
  {
    WaitersNotIdle(s);
    hide DoTick, Placed, SlicesOk, SleepOk, SemOk, MutexOk, Deeper, Shallower, HandOver, Without;
    assert s.ready + [] == s.ready;
    match op
    case Lock(i) => FreeOrOwned(s.mutexes[i]);
    case Unlock(i) => UnlockLine(s, i);
    case Yield => assert |s.ready| == 1 ==> s.ready == s.ready[1..] + [s.ready[0]];
    case SemNotify(i) => assert s.sems[i].waiters != [] ==> s.sems[i].waiters[0] in s.sems[i].waiters;
    case _ =>
  }

  lemma FreeOrOwned(m: Mutex)
    requires MutexOk(m)
    ensures m.lockedCount == 0 <==> m.owner == None
  {
  }

  lemma UnlockLine(s: State, i: nat)
    requires Known(s) && i < |s.mutexes| && s.cur != IDLE && forall t :: t in s.mutexes[i].waiters ==> t != IDLE
    ensures var x := DoUnlock(s, i).s;
            && x.ready == s.ready + Served(s, Unlock(i)) && x.sleeping == s.sleeping && x.walks == s.walks && x.cur == s.cur
            && SlicesKept(s, x)
  {
    hide Deeper, Shallower;
    assert s.ready + [] == s.ready;
    if s.mutexes[i].waiters != [] {
      assert s.mutexes[i].waiters[0] in s.mutexes[i].waiters;
    }
  }

  lemma WaitersNotIdle(s: State)
    requires Placed(s)
    ensures forall i, t :: 0 <= i < |s.sems| && t in s.sems[i].waiters ==> t != IDLE
    ensures forall i, t :: 0 <= i < |s.mutexes| && t in s.mutexes[i].waiters ==> t != IDLE
  {
    assert forall i :: 0 <= i < |s.sems| ==> s.sems[i].waiters == ListAt(s, SemQ(i));
    assert forall i :: 0 <= i < |s.mutexes| ==> s.mutexes[i].waiters == ListAt(s, MutexQ(i));
  }

  lemma OnlyWokenThen(x: State, y: State, z: State)
    requires OnlyWoken(x, y) && OnlyWoken(y, z)
    ensures OnlyWoken(x, z)
  {
  }

  lemma SlicesThen(x: State, y: State, z: State)
    requires SlicesKept(x, y) && SlicesKept(y, z)
    ensures SlicesKept(x, z)
  {
  }

  /** The slice and the ready list at a timer interrupt, before any walk. */
  ghost function Sliced(s: State): State
    requires s.cur in s.tasks
  {
    if s.tasks[s.cur].sliceTicks == 1 then Rotate(Refill(UseSlice(s))) else UseSlice(s)
  }

  lemma SlicedIs(s: State)
    requires Inv(s)
    ensures Known(s) && s.cur in s.tasks && Core(Sliced(s))
    ensures var x, e := Sliced(s), DoTick(s);
            && (if NextRun(x) != x.cur then e == Dispatching(x, true) else e == Dispatching(Walk(x), false))
            && x.cur == s.cur && x.sleeping == s.sleeping && x.walks == s.walks && x.tasks.Keys == s.tasks.Keys
            && (s.cur != IDLE ==> s.ready != [] && x.ready == Line(s, Tick))
            && (s.cur == IDLE ==> x.ready == [])
            && (forall t :: t in s.tasks && t != s.cur ==> x.tasks[t] == s.tasks[t])
            && x.tasks[s.cur].timeTicks == s.tasks[s.cur].timeTicks
            && x.tasks[s.cur].sliceTicks ==
               if s.tasks[s.cur].sliceTicks == 1 then s.tasks[s.cur].timeTicks else s.tasks[s.cur].sliceTicks - 1
  {
    hide Placed, SleepOk, SyncOk, On, SameOn, Walk;
    PlacedKnown(s);
    if s.cur == IDLE {
      IdleTick(s);
    } else {
      HeadOnce(s);
    }
    if s.tasks[s.cur].sliceTicks == 1 {
      ExpiredCore(s, Refill(UseSlice(s)));
    } else {
      SliceCore(s, s.ticks + 1, s.tasks[s.cur].sliceTicks - 1);
    }
  }

  lemma TickLine(s: State)
    requires Inv(s)
    ensures Known(s)
    ensures var e, x := Step(s, Tick), Sliced(s);
            && OnlyWoken(x, e) && SlicesKept(x, e) && x.tasks.Keys == s.tasks.Keys
            && e.cur == (if x.ready == [] then if e.ready == [] then IDLE else e.ready[0] else x.ready[0])
            && (x.ready != [] && e.cur != s.cur ==> e.cur in e.tasks && e.tasks[e.cur].state == Running)
            && (s.walks == e.walks ==> x.ready != [] && e.cur != s.cur)
  {
    hide Inv, Core, Sliced, DoTick, Walk, Dispatch, Begin;
    TickStepIs(s);
    StepInv(s, Tick);
    SettledIs(Step(s, Tick));
    SlicedIs(s);
    var x := Sliced(s);
    if NextRun(x) != x.cur {
      DispatchLine(x, true);
    } else {
      WalkLine(x);
      WalkCounts(x);
      DispatchLine(Walk(x), false);
      OnlyWokenThen(x, Walk(x), Step(s, Tick));
      SlicesThen(x, Walk(x), Step(s, Tick));
    }
  }

  lemma WalkCounts(s: State)
    ensures Walk(s).walks == s.walks + 1
  {
  }

  lemma SettledIs(s: State)
    requires Inv(s)
    ensures s.cur == if s.ready == [] then IDLE else s.ready[0]
  {
  }

  /**
   * Who runs after an operation of the current task or a timer interrupt, and who is ready then. The
   * processor passes to the next ready task exactly if the operation gives way. Whoever a walk wakes comes
   * behind all others.
   */
  lemma WhoRuns(s: State, op: Op)
    requires Inv(s) && Enabled(s, op) && s.cur != IDLE
    ensures Known(s) && s.ready != [] && s.cur in s.tasks
    ensures var e := Step(s, op);
            && e.cur == (if !GivesWay(s, op) then s.cur else if |s.ready| > 1 then s.ready[1] else IDLE)
            && (e.cur != s.cur <==> GivesWay(s, op))
            && (e.cur != s.cur ==> e.cur in e.tasks && e.tasks[e.cur].state == Running)
            && Line(s, op) <= e.ready && (e.walks == s.walks ==> e.ready == Line(s, op))
            && (forall k :: |Line(s, op)| <= k < |e.ready| ==> e.ready[k] in s.sleeping || (op.SleepMs? && e.ready[k] == s.cur))
            && (forall t :: t in e.sleeping ==> t in s.sleeping || (op.SleepMs? && t == s.cur))
  {
    hide *;
    InvKnown(s);
    HeadOnce(s);
    CurKnown(s);
    if op.Tick? {
      TickRuns(s);
    } else {
      OtherRuns(s, op);
    }
  }

  lemma TickRuns(s: State)
    requires Inv(s) && s.cur != IDLE && s.cur in s.tasks
    requires s.ready != [] && s.ready[0] == s.cur && s.cur !in s.ready[1..]
    ensures Known(s)
    ensures var e := Step(s, Tick);
            && (GivesWay(s, Tick) ==> |s.ready| > 1)
            && e.cur == (if !GivesWay(s, Tick) then s.cur else s.ready[1])
            && (e.cur != s.cur <==> GivesWay(s, Tick))
            && (e.cur != s.cur ==> e.cur in e.tasks && e.tasks[e.cur].state == Running)
            && Line(s, Tick) <= e.ready && (e.walks == s.walks ==> e.ready == Line(s, Tick))
            && (forall k :: |Line(s, Tick)| <= k < |e.ready| ==> e.ready[k] in s.sleeping)
            && (forall t :: t in e.sleeping ==> t in s.sleeping)
  {
    hide Inv, Sliced, Step, Known, DoTick;
    SlicedIs(s);
    TickLine(s);
    assert |s.ready| > 1 ==> s.ready[1..][0] == s.ready[1];
  }

  lemma OtherRuns(s: State, op: Op)
    requires Inv(s) && Known(s) && Enabled(s, op) && !op.Tick? && s.cur != IDLE && s.cur in s.tasks
    requires s.ready != [] && s.ready[0] == s.cur && s.cur !in s.ready[1..] && Without(s.ready, s.cur) == s.ready[1..]
    ensures var e := Step(s, op);
            && e.cur == (if !GivesWay(s, op) then s.cur else if |s.ready| > 1 then s.ready[1] else IDLE)
            && (e.cur != s.cur <==> GivesWay(s, op))
            && (e.cur != s.cur ==> e.cur in e.tasks && e.tasks[e.cur].state == Running)
            && Line(s, op) <= e.ready && (e.walks == s.walks ==> e.ready == Line(s, op))
            && (forall k :: |Line(s, op)| <= k < |e.ready| ==> e.ready[k] in s.sleeping || (op.SleepMs? && e.ready[k] == s.cur))
            && (forall t :: t in e.sleeping ==> t in s.sleeping || (op.SleepMs? && t == s.cur))
  {
    BeginKnown(s, op);
    BeginLine(s, op);
    StepEnds(s, op);
    NextInLine(s, op);
    hide Inv, Begin, Step, Known, Enabled, Line, GivesWay, Dispatch;
    if !op.Spawn? {
      AllBegun(s, op);
      var b := Begin(s, op);
      if b.Dispatching? {
        BegunFacts(s, b);
        DispatchLine(b.s, b.rest);
      } else {
        BegunFacts(s, b);
        SettledIs(b.s);
      }
    }
  }

  /** Who is first in line. */
  lemma NextInLine(s: State, op: Op)
    requires Inv(s) && Enabled(s, op) && !op.Tick? && s.cur in s.tasks
    requires s.ready != [] && s.ready[0] == s.cur && s.cur !in s.ready[1..]
    ensures var l := Line(s, op);
            && (GivesWay(s, op) <==> l == [] || l[0] != s.cur)
            && (GivesWay(s, op) ==> if |s.ready| > 1 then l != [] && l[0] == s.ready[1] else l == [])
    ensures op.Spawn? ==> !GivesWay(s, op)
  {
    assert |s.ready| > 1 ==> s.ready[1..][0] == s.ready[1] && s.ready[1] in s.ready[1..];
  }

  lemma {:induction false} DueSame(l: seq<TaskId>, tasks: map<TaskId, Tcb>, tasks': map<TaskId, Tcb>)
    requires forall t :: t in l ==> t in tasks && t in tasks' && tasks'[t].sleepTicks == tasks[t].sleepTicks
    ensures Due(l, tasks') == Due(l, tasks)
  {
    if l != [] {
      DueSame(l[1..], tasks, tasks');
    }
  }

  /** An idle processor walks at every interrupt, and stays idle as long as no sleeper has just one tick left. */
  lemma IdleUntilWoken(s: State)
    requires Inv(s) && s.cur == IDLE
    ensures Known(s)
    ensures var e := Step(s, Tick);
            && e.walks == s.walks + 1 && e.ready == Due(s.sleeping, s.tasks)
            && (e.cur == IDLE <==> forall t :: t in s.sleeping ==> t in s.tasks && s.tasks[t].sleepTicks != 1)
            && (e.cur != IDLE ==> e.ready != [] && e.cur == e.ready[0] && e.cur in e.tasks && e.tasks[e.cur].state == Running)
  {
    TickAlways(s);
    hide Inv, Core, Sliced, DoTick, Dispatch, Begin, Step, Known, Due;
    SlicedIs(s);
    var x, e := Sliced(s), Step(s, Tick);
    IdleTick(s);
    TickStepIs(s);
    IdlePending(s);
    IdleWalk(s, x);
    DispatchOnce(Walk(x), false);
    DueMembers(s.sleeping, s.tasks);
    StepInv(s, Tick);
    SettledIs(e);
    NotIdleReady(e);
  }

  lemma IdlePending(s: State)
    requires s.cur in s.tasks && s.cur == IDLE
    ensures Sliced(s).pending == s.pending && Sliced(s).cur == IDLE
  {
  }

  lemma IdleWalk(s: State, x: State)
    requires Inv(s) && x.sleeping == s.sleeping && s.cur == IDLE && x.ready == []
    requires forall t :: t in s.tasks && t != s.cur ==> t in x.tasks && x.tasks[t] == s.tasks[t]
    ensures Walk(x).ready == Due(s.sleeping, s.tasks)
    ensures forall t :: t in s.sleeping ==> t in s.tasks
  {
    forall t | t in s.sleeping ensures t in s.tasks && t != IDLE {
      SleeperFacts(s, t);
    }
    DueSame(s.sleeping, s.tasks, x.tasks);
    hide Inv;
    assert [] + Due(s.sleeping, s.tasks) == Due(s.sleeping, s.tasks);
  }

  lemma NotIdleReady(s: State)
    requires Inv(s)
    ensures s.cur != IDLE ==> s.cur in s.tasks
    ensures s.ready != [] ==> s.ready[0] != IDLE
  {
    HeadNotIdle(s);
  }

  lemma SliceTime(s: State, t: TaskId)
    requires Inv(s) && t in s.tasks
    ensures s.tasks[t].timeTicks == 10 && 1 <= s.tasks[t].sliceTicks <= 10
  {
  }

  lemma KeptAt(x: State, e: State, t: TaskId)
    requires SlicesKept(x, e) && t in x.tasks
    ensures t in e.tasks && e.tasks[t].sliceTicks == x.tasks[t].sliceTicks && e.tasks[t].timeTicks == x.tasks[t].timeTicks
  {
  }

  lemma OtherSlices(s: State, op: Op)
    requires Inv(s) && Known(s) && Enabled(s, op) && !op.Tick?
    ensures SlicesKept(s, Step(s, op))
  {
    NotIdle(s, op);
    HeadOnce(s);
    BeginKnown(s, op);
    BeginLine(s, op);
    StepEnds(s, op);
    hide Inv, Begin, Step, Known, Enabled, Line, Dispatch;
    if !op.Spawn? {
      AllBegun(s, op);
      var b := Begin(s, op);
      if b.Dispatching? {
        BegunFacts(s, b);
        DispatchLine(b.s, b.rest);
        SlicesThen(s, b.s, Step(s, op));
      }
    } else {
      SpawnReturns(s, op);
    }
  }

  lemma NotIdle(s: State, op: Op)
    requires Enabled(s, op) && !op.Tick?
    ensures s.cur != IDLE
  {
  }

  /** The time slices after an operation, in ticks; a slice that is used up starts anew at once. */
  lemma StepSlices(s: State, op: Op, t: TaskId)
    requires Inv(s) && Enabled(s, op) && t in s.tasks
    ensures Known(s) && t in Step(s, op).tasks
    ensures var b, b' := s.tasks[t], Step(s, op).tasks[t];
            && b'.timeTicks == b.timeTicks == 10
            && b'.sliceTicks ==
               if !op.Tick? || t != s.cur then b.sliceTicks else if b.sliceTicks == 1 then 10 else b.sliceTicks - 1
  {
    hide *;
    InvKnown(s);
    SliceTime(s, t);
    if op.Tick? {
      SlicedIs(s);
      TickLine(s);
      KeptAt(Sliced(s), Step(s, Tick), t);
    } else {
      OtherSlices(s, op);
      KeptAt(s, Step(s, op), t);
      SliceTime(s, t);
    }
  }

  /** A new task is ready, behind all others, with no sleep to do and a whole slice of ten ticks. */
  lemma NewTaskWaitsItsTurn(s: State, t: TaskId)
    requires Inv(s) && Enabled(s, Spawn(t))
    ensures Known(s)
    ensures var e := Step(s, Spawn(t));
            t in e.tasks && e.tasks[t] == Tcb(Ready, 0, 10, 10) && e.ready == s.ready + [t] && e.cur == s.cur
  {
    InvKnown(s);
    SpawnIs(s, t);
  }

  /** With two or more ready tasks a yield lets the second one run and puts the caller last; alone it does nothing. */
  lemma YieldTurns(s: State)
    requires Inv(s) && Enabled(s, Yield)
    ensures Known(s)
    ensures var e := Step(s, Yield);
            if |s.ready| <= 1 then e == s
            else
              && e.cur == s.ready[1]
              && s.ready[1..] + [s.cur] <= e.ready
              && (e.walks == s.walks ==> e.ready == s.ready[1..] + [s.cur])
  {
    WhoRuns(s, Yield);
    HeadOnce(s);
    if |s.ready| <= 1 {
      YieldAlone(s);
    }
    hide Inv, Step;
  }

  lemma YieldAlone(s: State)
    requires Known(s) && Enabled(s, Yield) && |s.ready| <= 1
    ensures Step(s, Yield) == s
  {
  }

  // ----- one slice

  /** During the run no task gives way of its own accord. */
  ghost predicate Stays(s: State, ops: seq<Op>)
    requires Legal(s, ops)
    decreases |ops|
  {
    ops == [] || ((ops[0].Tick? || !GivesWay(s, ops[0])) && Stays(Step(s, ops[0]), ops[1..]))
  }

  /** A task with `m` ticks of its slice left keeps the processor for `m - 1` timer interrupts. */
  lemma {:induction false} SliceKept(s: State, ops: seq<Op>)
    requires Inv(s) && Legal(s, ops) && s.cur != IDLE && s.cur in s.tasks && Stays(s, ops)
    requires NumTicks(ops) < s.tasks[s.cur].sliceTicks
    ensures var e := Exec(s, ops);
            && e.cur == s.cur && s.cur in e.tasks && e.tasks[s.cur].sliceTicks == s.tasks[s.cur].sliceTicks - NumTicks(ops)
            && s.ready <= e.ready
    decreases |ops|
  {
    if ops != [] {
      var s1 := Step(s, ops[0]);
      StepInv(s, ops[0]);
      WhoRuns(s, ops[0]);
      StepSlices(s, ops[0], s.cur);
      LineGrows(s, ops[0]);
      hide Inv, Step, Enabled, Known, GivesWay, Line;
      SliceKept(s1, ops[1..]);
    }
  }

  lemma LineGrows(s: State, op: Op)
    requires s.cur in s.tasks && s.ready != [] && !GivesWay(s, op)
    requires op.Tick? ==> s.tasks[s.cur].sliceTicks > 1
    ensures s.ready <= Line(s, op)
  {
    assert |s.ready| == 1 ==> s.ready[1..] + [s.ready[0]] == s.ready;
  }

  /**
   * At the `m`-th interrupt the task starts a new slice of ten ticks, and loses the processor to the next
   * ready task exactly if there is one; it is then behind all that were ready.
   */
  lemma SliceEnds(s: State, ops: seq<Op>)
    requires Inv(s) && Legal(s, ops) && s.cur != IDLE && s.cur in s.tasks && Stays(s, ops)
    requires NumTicks(ops) + 1 == s.tasks[s.cur].sliceTicks
    ensures var b := Exec(s, ops);
            && Known(b) && b.ready != []
            && var e := Step(b, Tick);
               && e.cur == (if |b.ready| > 1 then b.ready[1] else s.cur) && (|b.ready| > 1 ==> e.cur != s.cur)
               && (|s.ready| > 1 ==> e.cur == s.ready[1])
               && s.cur in e.tasks && e.tasks[s.cur].sliceTicks == 10
               && b.ready[1..] + [s.cur] <= e.ready
  {
    var b := Exec(s, ops);
    RunInv(s, ops);
    SliceKept(s, ops);
    TickAlways(b);
    HeadOnce(b);
    WhoRuns(b, Tick);
    StepSlices(b, Tick, s.cur);
    hide Inv, Step, Legal, Exec, Stays;
  }

  lemma TickAlways(s: State)
    requires Inv(s)
    ensures Known(s) && Enabled(s, Tick)
  {
    PlacedKnown(s);
  }

  // ----- taking turns

  function Ticks(n: nat): seq<Op>
  {
    seq(n, _ => Tick)
  }

  lemma {:induction false} TicksLegal(s: State, n: nat)
    requires Inv(s)
    ensures Legal(s, Ticks(n)) && NumTicks(Ticks(n)) == n
    decreases n
  {
    if n > 0 {
      TickAlways(s);
      StepInv(s, Tick);
      assert Ticks(n)[1..] == Ticks(n - 1) && Ticks(n)[0] == Tick;
      hide Inv, Step, Known, Enabled, Ticks;
      TicksLegal(Step(s, Tick), n - 1);
    }
  }

  /** `l` with its first `k` elements moved to the end. */
  function Rotated(l: seq<TaskId>, k: nat): seq<TaskId>
    requires k <= |l|
  {
    l[k..] + l[..k]
  }

  /** Nobody sleeps; the first ready task has `m` ticks of its slice left, the others a whole slice. */
  ghost predicate InTurns(s: State, ready: seq<TaskId>, m: int)
  {
    && s.ready == ready && (forall t :: t !in s.sleeping) && s.cur != IDLE
    && forall k :: 0 <= k < |ready| ==> ready[k] in s.tasks && s.tasks[ready[k]].sliceTicks == if k == 0 then m else 10
  }

  /** One interrupt while tasks take turns. */
  lemma TurnTick(s: State, m: int)
    requires Inv(s) && s.ready != [] && InTurns(s, s.ready, m) && 1 <= m <= 10
    ensures Known(s)
    ensures m > 1 ==> InTurns(Step(s, Tick), s.ready, m - 1)
    ensures m == 1 ==> InTurns(Step(s, Tick), Rotated(s.ready, 1), 10)
  {
    hide *;
    InTurnsIs(s, s.ready, m);
    InvKnown(s);
    TickAlways(s);
    StepInv(s, Tick);
    var e, l := Step(s, Tick), if m > 1 then s.ready else Rotated(s.ready, 1);
    HeadOnce(s);
    WhoRuns(s, Tick);
    TurnLine(s, m);
    NobodyMore(l, e.ready, s.sleeping);
    RotatedAt(s.ready);
    forall k | 0 <= k < |l| ensures l[k] in e.tasks && e.tasks[l[k]].sliceTicks == if m > 1 && k == 0 then m - 1 else 10 {
      var j := if m > 1 then k else if k < |l| - 1 then k + 1 else 0;
      assert l[k] == s.ready[j];
      assert j > 0 ==> s.ready[j] in s.ready[1..];
      StepSlices(s, Tick, s.ready[j]);
    }
    NotIdling(e);
    TurnsAre(e, l, if m > 1 then m - 1 else 10);
  }

  lemma TurnLine(s: State, m: int)
    requires s.cur in s.tasks && s.ready != [] && s.tasks[s.cur].sliceTicks == m
    ensures Line(s, Tick) == if m != 1 then s.ready else Rotated(s.ready, 1)
    ensures |Rotated(s.ready, 1)| == |s.ready|
  {
    assert s.ready + [] == s.ready;
    assert s.ready[..1] == [s.ready[0]];
  }

  lemma NobodyMore(l: seq<TaskId>, r: seq<TaskId>, from: seq<TaskId>)
    requires l <= r && (forall k :: |l| <= k < |r| ==> r[k] in from) && forall t :: t !in from
    ensures r == l
  {
    if l != r {
      FirstMore(l, r);
    }
  }

  lemma FirstMore(l: seq<TaskId>, r: seq<TaskId>)
    requires l < r
    ensures exists k :: |l| <= k < |r| && r[k] in r
  {
    assert r[|l|] in r;
  }

  lemma NotIdling(s: State)
    requires Inv(s) && s.ready != []
    ensures s.cur != IDLE
  {
    HeadNotIdle(s);
  }

  lemma InTurnsIs(s: State, ready: seq<TaskId>, m: int)
    requires InTurns(s, ready, m)
    ensures s.ready == ready && (forall t :: t !in s.sleeping) && s.cur != IDLE
    ensures forall k :: 0 <= k < |ready| ==> ready[k] in s.tasks && s.tasks[ready[k]].sliceTicks == if k == 0 then m else 10
  {
  }

  lemma TurnsAre(s: State, ready: seq<TaskId>, m: int)
    requires s.ready == ready && (forall t :: t !in s.sleeping) && s.cur != IDLE
    requires forall k :: 0 <= k < |ready| ==> ready[k] in s.tasks && s.tasks[ready[k]].sliceTicks == if k == 0 then m else 10
    ensures InTurns(s, ready, m)
  {
  }

  lemma RotatedAt(l: seq<TaskId>)
    requires l != []
    ensures forall k :: 0 <= k < |l| ==> Rotated(l, 1)[k] == l[if k < |l| - 1 then k + 1 else 0]
  {
  }

  lemma RotatedMore(l: seq<TaskId>, k: nat)
    requires k < |l|
    ensures Rotated(Rotated(l, k), 1) == Rotated(l, if k + 1 == |l| then 0 else k + 1)
    ensures Rotated(l, k) != [] && Rotated(l, k)[0] == l[k]
  {
    var r := Rotated(l, k);
    assert r[0] == l[k] && r[1..] == l[k + 1..] + l[..k];
  }

  lemma NextMod(q: nat, n: nat)
    requires n > 0
    ensures 0 <= q % n < n && (q + 1) % n == if q % n + 1 == n then 0 else q % n + 1
  {
    Divided(q, n);
    if q % n + 1 == n {
      Unique(q + 1, n, q / n + 1, 0);
    } else {
      Unique(q + 1, n, q / n, q % n + 1);
    }
  }

  /** Whose turn it is after `n` interrupts. */
  function Turn(n: nat, tasks: nat): (k: nat)
    requires tasks > 0
    ensures k < tasks
  {
    NextMod(n / 10, tasks);
    n / 10 % tasks
  }

  lemma {:induction false} TurnsAfter(s: State, n: nat)
    requires Inv(s) && s.ready != [] && InTurns(s, s.ready, 10)
    ensures Legal(s, Ticks(n))
    ensures InTurns(Exec(s, Ticks(n)), Rotated(s.ready, Turn(n, |s.ready|)), 10 - n % 10)
    decreases n
  {
    hide *;
    TicksLegal(s, n);
    if n == 0 {
      NoTicks(s);
    } else {
      TicksLegal(s, n - 1);
      TurnsAfter(s, n - 1);
      RunInv(s, Ticks(n - 1));
      OneTickMore(n);
      OneMore(s, Ticks(n - 1), Tick, Ticks(n));
      TurnAfter(s, Exec(s, Ticks(n - 1)), n);
    }
  }

  lemma NoTicks(s: State)
    requires s.ready != []
    ensures Legal(s, Ticks(0)) && Exec(s, Ticks(0)) == s
    ensures Turn(0, |s.ready|) == 0 && Rotated(s.ready, 0) == s.ready
  {
  }

  lemma OneTickMore(n: nat)
    requires n > 0
    ensures Ticks(n) == Ticks(n - 1) + [Tick]
  {
  }

  lemma TurnAfter(s: State, e: State, n: nat)
    requires n > 0 && s.ready != [] && Inv(e)
    requires InTurns(e, Rotated(s.ready, Turn(n - 1, |s.ready|)), 10 - (n - 1) % 10)
    ensures Known(e)
    ensures InTurns(Step(e, Tick), Rotated(s.ready, Turn(n, |s.ready|)), 10 - n % 10)
  {
    hide *;
    var k := Turn(n - 1, |s.ready|);
    InTurnsIs(e, Rotated(s.ready, k), 10 - (n - 1) % 10);
    RotatedMore(s.ready, k);
    TurnTick(e, 10 - (n - 1) % 10);
    NextTurn(n, |s.ready|);
  }

  lemma NextTurn(n: nat, tasks: nat)
    requires n > 0 && tasks > 0
    ensures var k := Turn(n - 1, tasks);
            if n % 10 == 0 then (n - 1) % 10 == 9 && Turn(n, tasks) == if k + 1 == tasks then 0 else k + 1
            else (n - 1) % 10 + 1 == n % 10 && Turn(n, tasks) == k
  {
    NextMod((n - 1) / 10, tasks);
    assert n / 10 == (n - 1) / 10 + if n % 10 == 0 then 1 else 0;
  }

  /**
   * Round robin: while nobody sleeps and only the timer interrupts, tasks with whole slices run for ten
   * interrupts each, in turn.
   */
  lemma RoundRobin(s: State, n: nat)
    requires Inv(s) && s.ready != [] && s.sleeping == []
    requires forall t :: t in s.ready ==> t in s.tasks && s.tasks[t].sliceTicks == 10
    ensures Legal(s, Ticks(n)) && n / 10 % |s.ready| < |s.ready|
    ensures Exec(s, Ticks(n)).cur == s.ready[n / 10 % |s.ready|]
  {
    HeadNotIdle(s);
    TurnsAfter(s, n);
    RunInv(s, Ticks(n));
    RotatedMore(s.ready, Turn(n, |s.ready|));
    SettledIs(Exec(s, Ticks(n)));
    hide Inv, Legal, Exec;
  }

  /** After booting and creating a second task, the two run for ten interrupts each, the first one first. */
  lemma TwoTasksTakeTurns(n: nat)
    ensures Legal(START, [Spawn(2)] + Ticks(n))
    ensures Exec(START, [Spawn(2)] + Ticks(n)).cur == if n / 10 % 2 == 0 then 1 else 2
  {
    StartInv();
    StepInv(START, Spawn(2));
    NewTaskWaitsItsTurn(START, 2);
    var s := Step(START, Spawn(2));
    StepSlices(START, Spawn(2), FIRST);
    assert ([Spawn(2)] + Ticks(n))[1..] == Ticks(n);
    NoSleepers();
    hide Inv, Step;
    RoundRobin(s, n);
  }

  lemma NoSleepers()
    ensures Known(START) && Enabled(START, Spawn(2)) && Step(START, Spawn(2)).sleeping == []
  {
  }
}