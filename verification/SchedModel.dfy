/**
 * The scheduler, its semaphores and its mutexes as one state machine on values.
 *
 * Every operation runs with interrupts off, so it is one step up to its task switch. A switch
 * suspends the caller inside the dispatcher. What the caller still has to do when it is next
 * dispatched is nothing, except for a caller switched away in the middle of the timer interrupt
 * (slice used up): the walk over the sleepers and the final dispatch are still to come. `pending`
 * is the set of tasks suspended at that point.
 */
module SchedModel {
  import opened Ints
  import opened Seqs

  type TaskId = nat

  const IDLE: TaskId := 0
  const FIRST: TaskId := 1
  const TASK_TIME_SLICE_DEFAULT := 10
  const OS_TICKS_MS := 10

  datatype TaskState = Created | Running | Asleep | Ready | Waitting

  datatype Tcb = Tcb(state: TaskState, sleepTicks: int, timeTicks: int, sliceTicks: int)

  /**
   * `count` and `waiters` are the semaphore. The rest is its history: the initial count, every task
   * that ever had to queue and every task served from the queue, both in order, the number of waits
   * that were let through and the number of notifications.
   */
  datatype Sem = Sem(count: int, waiters: seq<TaskId>,
                     init: int, queued: seq<TaskId>, served: seq<TaskId>, passes: nat, notifies: nat)

  /**
   * `owner`, `lockedCount` and `waiters` are the mutex. The rest is its history: the tasks that ever
   * queued and those that were handed the mutex, both in order, and for each task its hold depth: its
   * lock calls that have returned less the unlock calls it made while that number was positive.
   */
  datatype Mutex = Mutex(owner: Option<TaskId>, lockedCount: int, waiters: seq<TaskId>,
                         queued: seq<TaskId>, handed: seq<TaskId>, depth: map<TaskId, nat>)

  /** `ticks` counts timer interrupts and `walks` completed walks over the sleep list. */
  datatype State = State(
    cur: TaskId,
    ready: seq<TaskId>,
    sleeping: seq<TaskId>,
    tasks: map<TaskId, Tcb>,
    pending: set<TaskId>,
    sems: seq<Sem>,
    mutexes: seq<Mutex>,
    ticks: nat,
    walks: nat)

  datatype Op =
    | Tick
    | Yield
    | SleepMs(ms: nat)
    | SemInit(init: int)
    | SemWait(sem: nat)
    | SemNotify(sem: nat)
    | MutexInit
    | Lock(mutex: nat)
    | Unlock(mutex: nat)
    | Spawn(task: TaskId)

  const NEW_TCB := Tcb(Created, 0, TASK_TIME_SLICE_DEFAULT, TASK_TIME_SLICE_DEFAULT)

  function Depth(m: Mutex, t: TaskId): nat
  {
    if t in m.depth then m.depth[t] else 0
  }

  // ----- moving tasks between lists

  function SetReady(s: State, t: TaskId): State
    requires t in s.tasks
  {
    if t == IDLE then s
    else s.(ready := s.ready + [t], tasks := s.tasks[t := s.tasks[t].(state := Ready)])
  }

  function SetBlock(s: State, t: TaskId): State
  {
    if t == IDLE then s else s.(ready := Without(s.ready, t))
  }

  function SetSleep(s: State, t: TaskId, ticks: nat): State
    requires t in s.tasks
  {
    if ticks == 0 then s
    else s.(sleeping := s.sleeping + [t],
            tasks := s.tasks[t := s.tasks[t].(sleepTicks := ticks, state := Asleep)])
  }

  function NextRun(s: State): TaskId
  {
    if s.ready == [] then IDLE else s.ready[0]
  }

  // ----- one walk over the sleep list

  /** The tasks of `l` with exactly one tick left, in order. */
  function Due(l: seq<TaskId>, tasks: map<TaskId, Tcb>): seq<TaskId>
  {
    if l == [] then []
    else (if l[0] in tasks && tasks[l[0]].sleepTicks == 1 then [l[0]] else []) + Due(l[1..], tasks)
  }

  /** The other tasks of `l`, in order. */
  function NotDue(l: seq<TaskId>, tasks: map<TaskId, Tcb>): seq<TaskId>
  {
    if l == [] then []
    else (if l[0] in tasks && tasks[l[0]].sleepTicks == 1 then [] else [l[0]]) + NotDue(l[1..], tasks)
  }

  function Slept(tcb: Tcb): Tcb
  {
    if tcb.sleepTicks == 1 then tcb.(sleepTicks := 0, state := Ready)
    else tcb.(sleepTicks := tcb.sleepTicks - 1)
  }

  /** What a walk over the sleepers `l` does to the task table. */
  function SleptAll(l: seq<TaskId>, tasks: map<TaskId, Tcb>): map<TaskId, Tcb>
  {
    map t | t in tasks :: if t in l then Slept(tasks[t]) else tasks[t]
  }

  /** All sleepers lose one tick; those that run out join the ready list in sleep-list order. */
  function Walk(s: State): State
  {
    s.(sleeping := NotDue(s.sleeping, s.tasks),
       ready := s.ready + Due(s.sleeping, s.tasks),
       tasks := SleptAll(s.sleeping, s.tasks),
       walks := s.walks + 1)
  }

  // ----- the dispatcher

  /**
   * Switch to the head of the ready list, or to the idle task. `rest` says that the caller is the
   * timer interrupt and still has its walk to do. A switch to a task suspended there resumes it: it
   * walks and dispatches again.
   */
  function Dispatch(s: State, rest: bool): State
    requires Known(s)
    decreases |s.pending| + (if rest then 1 else 0)
  {
    var to := NextRun(s);
    if to == s.cur then s
    else
      var s1 := Switch(s, to, rest);
      if to in s.pending then
        WalkKnown(s1);
        Dispatch(Walk(s1), false)
      else s1
  }

  function Switch(s: State, to: TaskId, rest: bool): State
    requires to in s.tasks
  {
    s.(cur := to,
       tasks := s.tasks[to := s.tasks[to].(state := Running)],
       pending := (if rest then s.pending + {s.cur} else s.pending) - {to})
  }

  lemma DueMembers(l: seq<TaskId>, tasks: map<TaskId, Tcb>)
    ensures forall t :: t in Due(l, tasks) ==> t in l && t in tasks && tasks[t].sleepTicks == 1
    ensures forall t :: t in NotDue(l, tasks) ==> t in l && (t !in tasks || tasks[t].sleepTicks != 1)
    ensures forall t :: t in l ==> t in Due(l, tasks) || t in NotDue(l, tasks)
  {
  }

  /** Every task that a list or the processor refers to is in the task table. */
  ghost predicate Known(s: State)
  {
    && s.cur in s.tasks && IDLE in s.tasks
    && (forall t :: t in s.ready || t in s.sleeping ==> t in s.tasks)
    && (forall i, t :: 0 <= i < |s.sems| && t in s.sems[i].waiters ==> t in s.tasks)
    && (forall i, t :: 0 <= i < |s.mutexes| && t in s.mutexes[i].waiters ==> t in s.tasks)
  }

  // ----- the operations

  /** Ticks to sleep for `ms` milliseconds: rounded up, after a 32-bit addition. */
  function SleepTicks(ms: nat): nat
  {
    (ms + (OS_TICKS_MS - 1)) % TWO_TO_32 / OS_TICKS_MS
  }

  /**
   * What an operation needs of its caller: the idle task never makes a call, the object exists, a
   * new task is new, arguments fit their C type and signed counters do not overflow.
   */
  ghost predicate Enabled(s: State, op: Op)
  {
    && (op.Tick? || s.cur != IDLE)
    && match op
       case Tick => true
       case Yield => true
       case SleepMs(ms) => ms < TWO_TO_32
       case SemInit(init) => INT_MIN <= init <= INT_MAX
       case SemWait(i) => i < |s.sems|
       case SemNotify(i) => i < |s.sems| && (s.sems[i].waiters != [] || s.sems[i].count < INT_MAX)
       case MutexInit => true
       case Lock(i) => i < |s.mutexes| && (s.mutexes[i].owner == Some(s.cur) ==> s.mutexes[i].lockedCount < INT_MAX)
       case Unlock(i) => i < |s.mutexes|
       case Spawn(t) => t !in s.tasks
  }

  function UseSlice(s: State): State
    requires s.cur in s.tasks
  {
    var tcb := s.tasks[s.cur];
    s.(ticks := s.ticks + 1, tasks := s.tasks[s.cur := tcb.(sliceTicks := tcb.sliceTicks - 1)])
  }

  /** The current task gets a new slice and goes to the back of the ready list. */
  function Rotate(s: State): State
    requires s.cur in s.tasks
  {
    SetReady(SetBlock(s, s.cur), s.cur)
  }

  function Refill(s: State): State
    requires s.cur in s.tasks
  {
    var tcb := s.tasks[s.cur];
    s.(tasks := s.tasks[s.cur := tcb.(sliceTicks := tcb.timeTicks)])
  }

  lemma WithoutSubset<T>(l: seq<T>, x: T)
    ensures forall y :: y in Without(l, x) ==> y in l
  {
  }

  /** How an operation ends: it returns, or it calls the dispatcher with that `rest`. */
  datatype Effect = Done(s: State) | Dispatching(s: State, rest: bool)

  function DoTick(s: State): Effect
    requires Known(s)
  {
    var s0 := UseSlice(s);
    if s0.tasks[s.cur].sliceTicks == 0 then
      var s1 := Rotate(Refill(s0));
      if NextRun(s1) != s1.cur then Dispatching(s1, true) else Dispatching(Walk(s1), false)
    else Dispatching(Walk(s0), false)
  }

  function DoYield(s: State): Effect
    requires Known(s)
  {
    if |s.ready| > 1 then Dispatching(Rotate(s), false) else Done(s)
  }

  function DoSleep(s: State, ms: nat): Effect
    requires Known(s)
  {
    Dispatching(SetSleep(SetBlock(s, s.cur), s.cur, SleepTicks(ms)), false)
  }

  function DoSemWait(s: State, i: nat): Effect
    requires Known(s) && i < |s.sems|
  {
    var m := s.sems[i];
    if m.count > 0 then
      Done(s.(sems := s.sems[i := m.(count := m.count - 1, passes := m.passes + 1)]))
    else
      var m1 := m.(waiters := m.waiters + [s.cur], queued := m.queued + [s.cur]);
      Dispatching(SetBlock(s, s.cur).(sems := s.sems[i := m1]), false)
  }

  function DoSemNotify(s: State, i: nat): Effect
    requires Known(s) && i < |s.sems|
  {
    var m := s.sems[i].(notifies := s.sems[i].notifies + 1);
    if m.waiters != [] then
      var t := m.waiters[0];
      assert t in s.sems[i].waiters;
      var m1 := m.(waiters := m.waiters[1..], served := m.served + [t], passes := m.passes + 1);
      Dispatching(SetReady(s.(sems := s.sems[i := m1]), t), false)
    else
      Done(s.(sems := s.sems[i := m.(count := m.count + 1)]))
  }

  /** The depth after one more lock call of `t` has returned. */
  function Deeper(m: Mutex, t: TaskId): map<TaskId, nat>
  {
    m.depth[t := Depth(m, t) + 1]
  }

  /** The depth after an unlock call of `t`. */
  function Shallower(m: Mutex, t: TaskId): map<TaskId, nat>
  {
    if Depth(m, t) > 0 then m.depth[t := Depth(m, t) - 1] else m.depth
  }

  function DoLock(s: State, i: nat): Effect
    requires Known(s) && i < |s.mutexes|
  {
    var m := s.mutexes[i];
    if m.lockedCount == 0 then
      Done(s.(mutexes := s.mutexes[i :=
                m.(lockedCount := m.lockedCount + 1, owner := Some(s.cur), depth := Deeper(m, s.cur))]))
    else if m.owner == Some(s.cur) then
      Done(s.(mutexes := s.mutexes[i := m.(lockedCount := m.lockedCount + 1, depth := Deeper(m, s.cur))]))
    else
      var m1 := m.(waiters := m.waiters + [s.cur], queued := m.queued + [s.cur]);
      Dispatching(SetBlock(s, s.cur).(mutexes := s.mutexes[i := m1]), false)
  }

  /** A final unlock hands a mutex with waiters to the first of them, whose lock call thereby returns. */
  function HandOver(m: Mutex): Mutex
    requires m.waiters != []
  {
    var t := m.waiters[0];
    m.(owner := Some(t), lockedCount := 1, waiters := m.waiters[1..], handed := m.handed + [t], depth := Deeper(m, t))
  }

  function DoUnlock(s: State, i: nat): Effect
    requires Known(s) && i < |s.mutexes|
  {
    var m := s.mutexes[i].(depth := Shallower(s.mutexes[i], s.cur));
    if m.owner != Some(s.cur) then
      Done(s.(mutexes := s.mutexes[i := m]))
    else if m.lockedCount - 1 != 0 then
      Done(s.(mutexes := s.mutexes[i := m.(lockedCount := m.lockedCount - 1)]))
    else if m.waiters == [] then
      Done(s.(mutexes := s.mutexes[i := m.(lockedCount := 0, owner := None)]))
    else
      assert m.waiters[0] in s.mutexes[i].waiters;
      Dispatching(SetReady(s.(mutexes := s.mutexes[i := HandOver(m)]), m.waiters[0]), false)
  }

  /** An operation up to its dispatch. */
  function Begin(s: State, op: Op): Effect
    requires Known(s) && Enabled(s, op)
  {
    match op
    case Tick => DoTick(s)
    case Yield => DoYield(s)
    case SleepMs(ms) => DoSleep(s, ms)
    case SemInit(init) => Done(s.(sems := s.sems + [Sem(init, [], init, [], [], 0, 0)]))
    case SemWait(i) => DoSemWait(s, i)
    case SemNotify(i) => DoSemNotify(s, i)
    case MutexInit => Done(s.(mutexes := s.mutexes + [Mutex(None, 0, [], [], [], map[])]))
    case Lock(i) => DoLock(s, i)
    case Unlock(i) => DoUnlock(s, i)
    case Spawn(t) => Done(SetReady(s.(tasks := s.tasks[t := NEW_TCB]), t))
  }

  lemma WalkKnown(s: State)
    requires Known(s)
    ensures Known(Walk(s))
  {
    DueMembers(s.sleeping, s.tasks);
  }

  lemma RotateKnown(s: State)
    requires Known(s)
    ensures Known(Rotate(s)) && Known(SetBlock(s, s.cur))
  {
    WithoutSubset(s.ready, s.cur);
  }

  lemma TickKnown(s: State)
    requires Known(s)
    ensures Known(DoTick(s).s)
  {
    hide Walk, Rotate, NextRun;
    var s0 := UseSlice(s);
    RotateKnown(Refill(s0));
    WalkKnown(Rotate(Refill(s0)));
    WalkKnown(s0);
  }

  lemma BeginKnown(s: State, op: Op)
    requires Known(s) && Enabled(s, op)
    ensures Known(Begin(s, op).s)
  {
    hide DoTick, Rotate, HandOver, Shallower, Deeper;
    RotateKnown(s);
    match op
    case Tick => TickKnown(s);
    case Unlock(i) => UnlockKnown(s, i);
    case _ =>
  }

  lemma UnlockKnown(s: State, i: nat)
    requires Known(s) && i < |s.mutexes|
    ensures Known(DoUnlock(s, i).s)
  {
  }

  function Step(s: State, op: Op): State
    requires Known(s) && Enabled(s, op)
  {
    BeginKnown(s, op);
    match Begin(s, op)
    case Done(s1) => s1
    case Dispatching(s1, rest) => Dispatch(s1, rest)
  }

  /** After booting: the first task runs and is the only ready task; the idle task exists. */
  const START := State(FIRST, [FIRST], [], map[IDLE := NEW_TCB, FIRST := NEW_TCB.(state := Ready)], {}, [], [], 0, 0)
}
