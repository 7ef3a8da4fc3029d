/**
 * What the pieces of an operation that the kernel's objects carry out one after the other, each a
 * change of one list or of one object, amount to on the states.
 */
module KernelSteps {
  import opened Seqs
  import opened SchedModel
  import opened SchedInv
  import opened SchedRuns
  import opened SchedSteps
  import opened SchedWalk

  /** Before the first task: the idle task is the only one, and no task is current yet. */
  const BOOT := State(IDLE, [], [], map[IDLE := NEW_TCB], {}, [], [], 0, 0)

  /** `s` with its list `r` replaced by `l`. */
  ghost function Put(s: State, r: ListRef, l: seq<TaskId>): State
    requires r.SemQ? ==> r.i < |s.sems|
    requires r.MutexQ? ==> r.i < |s.mutexes|
  {
    match r
    case ReadyQ => s.(ready := l)
    case SleepQ => s.(sleeping := l)
    case SemQ(i) => s.(sems := s.sems[i := s.sems[i].(waiters := l)])
    case MutexQ(i) => s.(mutexes := s.mutexes[i := s.mutexes[i].(waiters := l)])
  }

  lemma PutPush(s: State, r: ListRef, t: TaskId)
    requires Placed(s) && (r.SemQ? ==> r.i < |s.sems|) && (r.MutexQ? ==> r.i < |s.mutexes|)
    requires t in s.tasks && t != IDLE && !On(s, t)
    ensures var l := ListAt(s, r) + [t]; Placed(Put(s, r, l)) && ListAt(Put(s, r, l), r) == l
    ensures t !in ListAt(s, r)
  {
    PutList(s, r, ListAt(s, r) + [t]);
    PlacedPush(s, Put(s, r, ListAt(s, r) + [t]), r, t);
  }

  lemma PutDrop(s: State, r: ListRef, t: TaskId)
    requires Placed(s) && (r.SemQ? ==> r.i < |s.sems|) && (r.MutexQ? ==> r.i < |s.mutexes|)
    requires t in ListAt(s, r)
    ensures var l := Without(ListAt(s, r), t);
            Placed(Put(s, r, l)) && ListAt(Put(s, r, l), r) == l && !On(Put(s, r, l), t)
  {
    PutList(s, r, Without(ListAt(s, r), t));
    PlacedDrop(s, Put(s, r, Without(ListAt(s, r), t)), r, t);
  }

  lemma PutList(s: State, r: ListRef, l: seq<TaskId>)
    requires (r.SemQ? ==> r.i < |s.sems|) && (r.MutexQ? ==> r.i < |s.mutexes|)
    ensures Replaced(s, Put(s, r, l), r, l)
  {
  }

  lemma PutIs(s: State, r: ListRef, l: seq<TaskId>)
    requires (r.SemQ? ==> r.i < |s.sems|) && (r.MutexQ? ==> r.i < |s.mutexes|)
    ensures ListAt(Put(s, r, l), r) == l
  {
  }

  lemma WithoutMembersOf(s: State, r: ListRef, t: TaskId)
    requires Placed(s)
    ensures forall x :: x != t ==> (x in Without(ListAt(s, r), t) <==> x in ListAt(s, r))
  {
    WithoutMembers(ListAt(s, r), t);
  }

  lemma SwitchLists(s: State, to: TaskId, rest: bool)
    requires Placed(s) && to in s.tasks
    ensures var s' := Switch(s, to, rest);
            Placed(s') && s'.sems == s.sems && s'.mutexes == s.mutexes && forall r :: ListAt(s', r) == ListAt(s, r)
  {
    PlacedSame(s, Switch(s, to, rest));
  }

  /** The fields of the states agree, apart from the counts of interrupts and walks and the history. */
  ghost predicate SameKernel(s: State, s': State)
  {
    && s'.cur == s.cur && s'.ready == s.ready && s'.sleeping == s.sleeping && s'.tasks == s.tasks && s'.pending == s.pending
    && |s'.sems| == |s.sems| && |s'.mutexes| == |s.mutexes|
    && (forall i :: 0 <= i < |s.sems| ==> s'.sems[i].count == s.sems[i].count && s'.sems[i].waiters == s.sems[i].waiters)
    && (forall i :: 0 <= i < |s.mutexes| ==>
          && s'.mutexes[i].owner == s.mutexes[i].owner
          && s'.mutexes[i].lockedCount == s.mutexes[i].lockedCount
          && s'.mutexes[i].waiters == s.mutexes[i].waiters)
  }

  lemma SameParts(s: State, s': State)
    requires s'.cur == s.cur && s'.tasks == s.tasks && s'.pending == s.pending
    requires ListAt(s, ReadyQ) == ListAt(s', ReadyQ) && ListAt(s, SleepQ) == ListAt(s', SleepQ)
    requires |s'.sems| == |s.sems| && |s'.mutexes| == |s.mutexes|
    requires forall i :: 0 <= i < |s.sems| ==> s'.sems[i].count == s.sems[i].count && s'.sems[i].waiters == s.sems[i].waiters
    requires forall i :: 0 <= i < |s.mutexes| ==>
               && s'.mutexes[i].owner == s.mutexes[i].owner
               && s'.mutexes[i].lockedCount == s.mutexes[i].lockedCount
               && s'.mutexes[i].waiters == s.mutexes[i].waiters
    ensures SameKernel(s, s')
  {
  }

  lemma SameLists(s: State, s': State)
    requires Placed(s) && SameKernel(s, s')
    ensures Placed(s') && forall r :: ListAt(s', r) == ListAt(s, r)
  {
    PlacedSame(s, s');
  }

  lemma CountedIs(s: State, t: TaskId, tcb: Tcb)
    requires t in s.tasks && tcb == s.tasks[t].(sleepTicks := s.tasks[t].sleepTicks - 1)
    ensures Counted(s, t) == s.(tasks := s.tasks[t := tcb]) && Counted(s, t).sleeping == s.sleeping
  {
  }

  lemma SleepersOf(s: State)
    ensures ListAt(s, SleepQ) == s.sleeping
  {
  }

  lemma WalkWork(s: State, k: nat)
    requires k < |s.sleeping| && Placed(s) && s.sleeping[k] in s.tasks
    ensures var p, t := WalkPrefix(s, k), s.sleeping[k];
            && t in p.tasks && Counted(p, t).sleeping == p.sleeping
            && (s.tasks[t].sleepTicks == 1 ==>
                  && t in p.sleeping
                  && SetReady(Counted(p, t).(sleeping := Without(p.sleeping, t)), t) == WalkPrefix(s, k + 1))
            && (s.tasks[t].sleepTicks != 1 ==> Counted(p, t) == WalkPrefix(s, k + 1))
  {
    if s.tasks[s.sleeping[k]].sleepTicks == 1 {
      WalkPrefixWakes(s, k);
    } else {
      WalkPrefixStays(s, k);
    }
  }

  /** An operation that returned, or that called the dispatcher, after its effect. */
  lemma StepIs(s: State, op: Op)
    requires Inv(s) && Enabled(s, op)
    ensures Known(s) && Known(Begin(s, op).s) && Inv(Step(s, op)) && (op.Tick? || s.cur != IDLE)
    ensures Begin(s, op).Done? ==> Step(s, op) == Begin(s, op).s
    ensures Begin(s, op).Dispatching? ==> Step(s, op) == Dispatch(Begin(s, op).s, Begin(s, op).rest)
  {
    hide Inv, Begin, Dispatch;
    StepInv(s, op);
    BeginKnown(s, op);
  }

  lemma CurOffWhenBlocked(s: State)
    requires Placed(s) && (s.cur == IDLE || s.cur in s.ready)
    ensures s.cur in s.tasks && !On(SetBlock(s, s.cur), s.cur) && Placed(SetBlock(s, s.cur))
  {
    assert ListAt(s, ReadyQ) == s.ready;
    if s.cur != IDLE {
      PlacedDrop(s, SetBlock(s, s.cur), ReadyQ, s.cur);
    }
  }

  lemma RotateIs(s: State)
    requires s.cur in s.tasks
    ensures s.cur in SetBlock(s, s.cur).tasks && Rotate(s) == SetReady(SetBlock(s, s.cur), s.cur)
  {
  }

  lemma YieldIs(s: State)
    requires Known(s) && Enabled(s, Yield)
    ensures Begin(s, Yield) == if |s.ready| > 1 then Dispatching(Rotate(s), false) else Done(s)
  {
  }

  lemma UseSliceIs(s: State, s1: State, tcb: Tcb)
    requires s.cur in s.tasks && tcb == s.tasks[s.cur].(sliceTicks := s.tasks[s.cur].sliceTicks - 1)
    requires s1 == s.(tasks := s.tasks[s.cur := tcb])
    ensures SameKernel(s1, UseSlice(s))
  {
  }

  lemma RefillIs(s: State)
    requires s.cur in s.tasks
    ensures Refill(s) == s.(tasks := s.tasks[s.cur := s.tasks[s.cur].(sliceTicks := s.tasks[s.cur].timeTicks)])
  {
  }

  lemma RefillCur(s: State)
    requires s.cur in s.tasks
    ensures Refill(s).cur == s.cur && Refill(s).ready == s.ready && s.cur in Refill(s).tasks
  {
  }

  /** The state in which a timer interrupt comes to its walk, if it does. */
  ghost function BeforeWalk(s: State): State
    requires s.cur in s.tasks
  {
    if s.tasks[s.cur].sliceTicks == 1 then Rotate(Refill(UseSlice(s))) else UseSlice(s)
  }

  /** The ways of a timer interrupt, and where the walk comes in each. */
  lemma TickCases(s: State)
    requires Inv(s)
    ensures Known(s) && s.cur in s.tasks && Inv(Step(s, Tick))
    ensures var p := UseSlice(s); p.cur == s.cur && p.cur in p.tasks && (p.cur == IDLE || p.cur in p.ready)
    ensures var w := BeforeWalk(s);
            && Known(w) && Known(Walk(w))
            && (s.tasks[s.cur].sliceTicks == 1 ==>
                  && w == Rotate(Refill(UseSlice(s)))
                  && (NextRun(w) != w.cur ==> Step(s, Tick) == Dispatch(w, true))
                  && (NextRun(w) == w.cur ==> Dispatch(w, true) == w))
            && (!(s.tasks[s.cur].sliceTicks == 1 && NextRun(w) != w.cur) ==> Step(s, Tick) == Dispatch(Walk(w), false))
            && (s.tasks[s.cur].sliceTicks != 1 ==> w == UseSlice(s))
  {
    hide Walk, Rotate, SlicesOk, SleepOk, SyncOk, Step, Placed;
    StepIs(s, Tick);
    TickAtOnce(s);
    PlacedKnown(s);
    if s.cur != IDLE { CurReady(s); }
    RotateKnown(Refill(UseSlice(s)));
    WalkKnown(BeforeWalk(s));
  }

  lemma TickAtOnce(s: State)
    requires Known(s) && Enabled(s, Tick)
    ensures Begin(s, Tick) == DoTick(s)
  {
  }

  /** `s` with the fields of `t` set for a sleep. */
  ghost function Marked(s: State, t: TaskId, ticks: nat): State
    requires t in s.tasks
  {
    s.(tasks := s.tasks[t := s.tasks[t].(sleepTicks := ticks, state := Asleep)])
  }

  lemma MarkedIs(s: State, t: TaskId, ticks: nat)
    requires t in s.tasks
    ensures Marked(s, t, ticks) == s.(tasks := s.tasks[t := s.tasks[t].(sleepTicks := ticks, state := Asleep)])
  {
  }

  lemma MarkedOff(s: State, t: TaskId, ticks: nat)
    requires Placed(s) && t in s.tasks && !On(s, t)
    ensures !On(Marked(s, t, ticks), t)
  {
    PlacedSame(s, Marked(s, t, ticks));
  }

  lemma SleepIs(s: State, ms: nat)
    requires Known(s) && Enabled(s, SleepMs(ms))
    ensures s.cur != IDLE && s.cur in SetBlock(s, s.cur).tasks
    ensures Begin(s, SleepMs(ms)) == Dispatching(SetSleep(SetBlock(s, s.cur), s.cur, SleepTicks(ms)), false)
  {
  }

  lemma SemLists(s: State, s': State, i: nat)
    requires Placed(s) && i < |s.sems| && s' == s.(sems := s'.sems) && |s'.sems| == |s.sems|
    requires forall j :: 0 <= j < |s.sems| ==> s'.sems[j].waiters == s.sems[j].waiters
    ensures Placed(s') && forall r :: ListAt(s', r) == ListAt(s, r)
  {
    PlacedSame(s, s');
  }

  lemma SemWaitIs(s: State, i: nat)
    requires Inv(s) && Known(s) && Enabled(s, Op.SemWait(i))
    ensures var e := Begin(s, Op.SemWait(i));
            && e.Done? == (s.sems[i].count > 0) && (e.Dispatching? ==> !e.rest)
            && s.cur in s.ready && s.cur != IDLE
            && (if s.sems[i].count > 0 then SameKernel(s.(sems := s.sems[i := s.sems[i].(count := s.sems[i].count - 1)]), e.s)
                else SameKernel(Queued(s, SemQ(i)), e.s))
  {
    CurReady(s);
  }

  /** `s` with the current task moved from the ready list to the end of the wait list `r`. */
  ghost function Queued(s: State, r: ListRef): State
    requires r.SemQ? ==> r.i < |s.sems|
    requires r.MutexQ? ==> r.i < |s.mutexes|
  {
    var b := SetBlock(s, s.cur);
    Put(b, r, ListAt(b, r) + [s.cur])
  }

  /** `s` with the first task of the wait list `r` moved to the ready list. */
  ghost function Released(s: State, r: ListRef): State
    requires ListAt(s, r) != [] && ListAt(s, r)[0] in s.tasks
    requires r.SemQ? ==> r.i < |s.sems|
    requires r.MutexQ? ==> r.i < |s.mutexes|
  {
    SetReady(Put(s, r, Without(ListAt(s, r), ListAt(s, r)[0])), ListAt(s, r)[0])
  }

  lemma SemNotifyIs(s: State, i: nat)
    requires Inv(s) && Known(s) && Enabled(s, Op.SemNotify(i))
    ensures var e, w := Begin(s, Op.SemNotify(i)), ListAt(s, SemQ(i));
            && e.Done? == (w == []) && (e.Dispatching? ==> !e.rest)
            && (if w == [] then SameKernel(s.(sems := s.sems[i := s.sems[i].(count := s.sems[i].count + 1)]), e.s)
                else w[0] in s.tasks && SameKernel(Released(s, SemQ(i)), e.s))
  {
    if s.sems[i].waiters != [] {
      assert s.sems[i].waiters[0] in ListAt(s, SemQ(i));
      WithoutHead(s.sems[i].waiters);
    }
  }

  lemma MutexLists(s: State, s': State, i: nat)
    requires Placed(s) && i < |s.mutexes| && s' == s.(mutexes := s'.mutexes) && |s'.mutexes| == |s.mutexes|
    requires forall j :: 0 <= j < |s.mutexes| ==> s'.mutexes[j].waiters == s.mutexes[j].waiters
    ensures Placed(s') && forall r :: ListAt(s', r) == ListAt(s, r)
  {
    PlacedSame(s, s');
  }

  lemma LockIs(s: State, i: nat)
    requires Inv(s) && Known(s) && Enabled(s, Lock(i))
    ensures var e, m := Begin(s, Lock(i)), s.mutexes[i];
            && |e.s.mutexes| == |s.mutexes| && s.cur in s.ready && s.cur != IDLE
            && (if m.lockedCount == 0 || m.owner == Some(s.cur)
                then var m' := e.s.mutexes[i];
                     && e.Done? && e.s == s.(mutexes := s.mutexes[i := m'])
                     && m'.waiters == m.waiters && m'.lockedCount == m.lockedCount + 1 && m'.owner == Some(s.cur)
                else e.Dispatching? && !e.rest && SameKernel(Queued(s, MutexQ(i)), e.s))
  {
    CurReady(s);
  }

  /** `s` with the owner and count of mutex `i` set. */
  ghost function WithOwner(s: State, i: nat, owner: Option<TaskId>, lockedCount: int): State
    requires i < |s.mutexes|
  {
    s.(mutexes := s.mutexes[i := s.mutexes[i].(owner := owner, lockedCount := lockedCount)])
  }

  lemma UnlockIs(s: State, i: nat)
    requires Inv(s) && Known(s) && Enabled(s, Unlock(i))
    ensures var e, m := Begin(s, Unlock(i)), s.mutexes[i];
            if m.owner != Some(s.cur) then e.Done? && SameKernel(s, e.s)
            else if m.lockedCount != 1 then e.Done? && SameKernel(WithOwner(s, i, m.owner, m.lockedCount - 1), e.s)
            else if m.waiters == [] then e.Done? && SameKernel(WithOwner(s, i, None, 0), e.s)
            else
              var f := WithOwner(s, i, None, 0);
              && e.Dispatching? && !e.rest && ListAt(f, MutexQ(i)) == m.waiters && m.waiters[0] in s.tasks
              && SameKernel(WithOwner(Released(f, MutexQ(i)), i, Some(m.waiters[0]), 1), e.s)
  {
    hide Placed, SemOk, SlicesOk, SleepOk;
    if s.mutexes[i].waiters != [] {
      assert s.mutexes[i].waiters[0] in s.mutexes[i].waiters;
      WithoutHead(s.mutexes[i].waiters);
    }
  }

  lemma SameKernelRefl(s: State)
    ensures SameKernel(s, s)
  {
  }

  lemma HandedIs(s: State, i: nat, t: TaskId)
    requires i < |s.mutexes|
    ensures var h := WithOwner(s, i, Some(t), 1);
            && h == s.(mutexes := s.mutexes[i := h.mutexes[i]]) && h.mutexes[i].lockedCount == 1
            && h.mutexes[i].waiters == s.mutexes[i].waiters && h.mutexes[i].owner == Some(t)
  {
  }

  lemma LoweredIs(s: State, i: nat)
    requires i < |s.mutexes|
    ensures var m, l := s.mutexes[i], WithOwner(s, i, s.mutexes[i].owner, s.mutexes[i].lockedCount - 1);
            && l == s.(mutexes := s.mutexes[i := l.mutexes[i]]) && l.mutexes[i].lockedCount == m.lockedCount - 1
            && l.mutexes[i].waiters == m.waiters && l.mutexes[i].owner == m.owner && l.tasks == s.tasks
            && WithOwner(l, i, None, 0) == WithOwner(s, i, None, 0) && |l.mutexes| == |s.mutexes|
  {
  }

  lemma InitIs(s: State, init: int)
    requires Known(s) && s.cur != IDLE
    ensures Enabled(s, Op.SemInit(init)) ==>
              Begin(s, Op.SemInit(init)) == Done(s.(sems := s.sems + [Sem(init, [], init, [], [], 0, 0)]))
    ensures Enabled(s, Op.MutexInit)
    ensures Begin(s, Op.MutexInit) == Done(s.(mutexes := s.mutexes + [Mutex(None, 0, [], [], [], map[])]))
  {
  }

  /** A new semaphore or mutex has no waiters. */
  lemma AddedLists(s: State, s': State)
    requires Placed(s)
    requires s' == s.(sems := s'.sems, mutexes := s'.mutexes) && s.sems <= s'.sems && s.mutexes <= s'.mutexes
    requires forall i :: |s.sems| <= i < |s'.sems| ==> s'.sems[i].waiters == []
    requires forall i :: |s.mutexes| <= i < |s'.mutexes| ==> s'.mutexes[i].waiters == []
    ensures Placed(s') && forall r :: ListAt(s', r) == ListAt(s, r)
    ensures ListAt(s', SemQ(|s.sems|)) == [] && ListAt(s', MutexQ(|s.mutexes|)) == []
  {
    PlacedSame(s, s');
  }

  lemma TaskAddedLists(s: State, s': State, t: TaskId)
    requires Placed(s) && t !in s.tasks && s' == s.(tasks := s.tasks[t := NEW_TCB])
    ensures Placed(s') && !On(s', t) && forall r :: ListAt(s', r) == ListAt(s, r)
  {
    PlacedSame(s, s');
  }

  lemma BootStates()
    ensures FIRST !in BOOT.tasks && Inv(START)
    ensures START.ready == [FIRST] && FIRST in START.tasks && START.tasks[FIRST] == Tcb(Ready, 0, 10, 10)
    ensures var s := SetReady(BOOT.(tasks := BOOT.tasks[FIRST := NEW_TCB]), FIRST);
            s.cur == IDLE && FIRST in s.tasks && s.(cur := FIRST) == START
  {
    StartInv();
  }

  lemma CurrentLists(s: State, t: TaskId)
    requires Placed(s) && t in s.tasks
    ensures Placed(s.(cur := t)) && forall r :: ListAt(s.(cur := t), r) == ListAt(s, r)
  {
    PlacedSame(s, s.(cur := t));
  }
}
