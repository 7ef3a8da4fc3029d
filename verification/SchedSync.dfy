/** Mutexes and semaphores over runs: exclusion, conservation, and service in the order of arrival. */
module SchedSync {
  import opened Seqs
  import opened SchedModel
  import opened SchedInv
  import opened SchedSteps
  import opened SchedRuns

  /** Only operations on a semaphore or a mutex change it; a dispatch never does. */
  lemma StepSync(s: State, op: Op)
    requires Inv(s) && Enabled(s, op)
    ensures Known(s)
    ensures Step(s, op).sems == Begin(s, op).s.sems && Step(s, op).mutexes == Begin(s, op).s.mutexes
  {
    PlacedKnown(s);
    BeginKnown(s, op);
    if !op.Spawn? {
      hide Placed, SlicesOk, SleepOk, SyncOk, Begin, Dispatch, SameOn;
      AllBegun(s, op);
      var e := Begin(s, op);
      if e.Dispatching? { DispatchOnce(e.s, e.rest); }
    }
  }

  lemma InvSync(s: State)
    requires Inv(s)
    ensures SyncOk(s)
  {
  }

  lemma TickSync(s: State)
    requires Known(s)
    ensures DoTick(s).s.sems == s.sems && DoTick(s).s.mutexes == s.mutexes
  {
  }

  // ----- mutexes

  /** The current task gives the mutex up. */
  ghost predicate FinalUnlock(s: State, op: Op, i: nat)
    requires i < |s.mutexes|
  {
    op == Unlock(i) && s.mutexes[i].owner == Some(s.cur) && s.mutexes[i].lockedCount == 1
  }

  /** The current task asks for the mutex while another task holds it. */
  ghost predicate Contends(s: State, op: Op, i: nat)
    requires i < |s.mutexes|
  {
    op == Lock(i) && s.mutexes[i].lockedCount > 0 && s.mutexes[i].owner != Some(s.cur)
  }

  lemma BeginMutex(s: State, op: Op, i: nat)
    requires Known(s) && Enabled(s, op) && SyncOk(s) && i < |s.mutexes|
    ensures i < |Begin(s, op).s.mutexes|
    ensures var m, m' := s.mutexes[i], Begin(s, op).s.mutexes[i];
            if FinalUnlock(s, op, i) then
              if m.waiters == [] then m'.owner == None && m'.waiters == [] && m'.handed == m.handed
              else && m'.owner == Some(m.waiters[0]) && m'.lockedCount == 1 && m.waiters == [m.waiters[0]] + m'.waiters
                   && m'.handed == m.handed + [m.waiters[0]]
            else if Contends(s, op, i) then
              m'.owner == m.owner && m'.waiters == m.waiters + [s.cur] && m'.handed == m.handed
            else
              && m'.waiters == m.waiters && m'.handed == m.handed
              && (m'.owner == m.owner || (m.owner == None && m.waiters == [] && op == Lock(i) && m'.owner == Some(s.cur)))
  {
    hide DoTick, MutexOk, SemOk, Deeper, Shallower;
    TickSync(s);
    match op
    case Unlock(j) => MutexFacts(s.mutexes[j]);
    case Lock(j) => MutexFacts(s.mutexes[j]);
    case _ =>
  }

  lemma MutexFacts(m: Mutex)
    requires MutexOk(m)
    ensures m.lockedCount >= 0 && (m.lockedCount == 0 <==> m.owner == None) && (m.waiters != [] ==> m.lockedCount > 0)
  {
  }

  /** Who is woken is ready in the same step. */
  lemma HandoverReady(s: State, op: Op, i: nat)
    requires Inv(s) && Enabled(s, op) && i < |s.mutexes| && FinalUnlock(s, op, i) && s.mutexes[i].waiters != []
    ensures Known(s) && s.mutexes[i].waiters[0] in Step(s, op).ready
  {
    PlacedKnown(s);
    BeginKnown(s, op);
    CurReady(s);
    WakingKeepsHead(s, op);
    assert s.mutexes[i].waiters[0] in ListAt(s, MutexQ(i));
    hide Placed, SlicesOk, SleepOk, SyncOk, SameOn, HandOver, Shallower;
  }

  /** In a reachable state, holding a mutex is what its owner and count say. */
  lemma MutualExclusion(ops: seq<Op>, i: nat)
    requires Legal(START, ops) && i < |Exec(START, ops).mutexes|
    ensures var m := Exec(START, ops).mutexes[i];
            && (forall t1: TaskId, t2: TaskId :: Depth(m, t1) > 0 && Depth(m, t2) > 0 ==> t1 == t2)
            && (forall t: TaskId :: Depth(m, t) > 0 <==> m.owner == Some(t))
            && (m.owner.Some? ==> m.lockedCount == Depth(m, m.owner.value))
            && (m.owner == None <==> m.lockedCount == 0)
            && (m.waiters != [] ==> m.owner.Some? && m.owner.value !in m.waiters)
  {
    StartInv();
    RunInv(START, ops);
    assert MutexOk(Exec(START, ops).mutexes[i]);
  }

  /** The head of `w` is served, then the first `n` of the rest `w1`. */
  lemma ServedFirst(w: seq<TaskId>, w1: seq<TaskId>, n: nat, done: seq<TaskId>, done': seq<TaskId>, w': seq<TaskId>)
    requires w != [] && w == [w[0]] + w1 && n <= |w1|
    requires done' == done + [w[0]] + w1[..n] && w1[n..] <= w'
    ensures done' == done + w[..n + 1] && w[n + 1..] <= w'
  {
    assert w[..n + 1] == [w[0]] + w1[..n];
    assert w[n + 1..] == w1[n..];
  }

  /** `w` is joined by others at its end, then its first `n` are served. */
  lemma ServedLater(w: seq<TaskId>, w1: seq<TaskId>, n: nat, done: seq<TaskId>, done': seq<TaskId>, w': seq<TaskId>)
    requires n <= |w| && w <= w1
    requires done' == done + w1[..n] && w1[n..] <= w'
    ensures done' == done + w[..n] && w[n..] <= w'
  {
    assert w1[..n] == w[..n];
    assert w[n..] <= w1[n..];
  }

  /** The number of times the mutex is given up during a run. */
  ghost function NumFinal(s: State, ops: seq<Op>, i: nat): nat
    requires Legal(s, ops) && i < |s.mutexes| && Inv(s)
    decreases |ops|
  {
    if ops == [] then 0
    else
      StepInv(s, ops[0]);
      StepSync(s, ops[0]);
      BeginMutex(s, ops[0], i);
      (if FinalUnlock(s, ops[0], i) then 1 else 0) + NumFinal(Step(s, ops[0]), ops[1..], i)
  }

  /**
   * As long as the mutex is given up no more often than there were waiters, exactly the first waiters
   * have been handed it, in their order, and the others are still ahead of everybody who came later.
   */
  lemma {:induction false} MutexFifo(s: State, ops: seq<Op>, i: nat)
    requires Inv(s) && Legal(s, ops) && i < |s.mutexes|
    requires NumFinal(s, ops, i) <= |s.mutexes[i].waiters|
    ensures i < |Exec(s, ops).mutexes|
    ensures var n, m, m' := NumFinal(s, ops, i), s.mutexes[i], Exec(s, ops).mutexes[i];
            m'.handed == m.handed + m.waiters[..n] && m.waiters[n..] <= m'.waiters
    decreases |ops|
  {
    hide Inv, Step, Begin, Enabled, Known, SyncOk, FinalUnlock, Contends;
    if ops != [] {
      var s1 := Step(s, ops[0]);
      StepInv(s, ops[0]);
      StepSync(s, ops[0]);
      InvSync(s);
      BeginMutex(s, ops[0], i);
      MutexFifo(s1, ops[1..], i);
      var m, m1, m' := s.mutexes[i], s1.mutexes[i], Exec(s, ops).mutexes[i];
      var n1 := NumFinal(s1, ops[1..], i);
      if FinalUnlock(s, ops[0], i) {
        ServedFirst(m.waiters, m1.waiters, n1, m.handed, m'.handed, m'.waiters);
      } else {
        ServedLater(m.waiters, m1.waiters, n1, m.handed, m'.handed, m'.waiters);
      }
    }
  }

  /**
   * The task in position `k` of the wait list is still waiting after `k` releases, and the next
   * release makes it the owner, once, and ready: direct handoff, without barging.
   */
  lemma MutexHandoff(s: State, ops: seq<Op>, op: Op, i: nat, k: nat)
    requires Inv(s) && Legal(s, ops) && i < |s.mutexes|
    requires k < |s.mutexes[i].waiters| && NumFinal(s, ops, i) == k
    ensures i < |Exec(s, ops).mutexes| && s.mutexes[i].waiters[k] in Exec(s, ops).mutexes[i].waiters
    ensures Enabled(Exec(s, ops), op) && FinalUnlock(Exec(s, ops), op, i) ==>
              var e := Exec(s, ops);
              && Known(e) && i < |Step(e, op).mutexes|
              && Step(e, op).mutexes[i].owner == Some(s.mutexes[i].waiters[k])
              && Step(e, op).mutexes[i].lockedCount == 1
              && s.mutexes[i].waiters[k] in Step(e, op).ready
  {
    MutexFifo(s, ops, i);
    RunInv(s, ops);
    var e := Exec(s, ops);
    var w := s.mutexes[i].waiters;
    assert w[k..][0] == w[k] && e.mutexes[i].waiters[0] == w[k];
    if Enabled(e, op) && FinalUnlock(e, op, i) {
      StepInv(e, op);
      StepSync(e, op);
      BeginMutex(e, op, i);
      HandoverReady(e, op, i);
    }
  }

  /** While tasks wait, ownership passes only to the first of them. */
  lemma NoBarging(s: State, op: Op, i: nat)
    requires Inv(s) && Enabled(s, op) && i < |s.mutexes| && s.mutexes[i].waiters != []
    ensures Known(s) && i < |Step(s, op).mutexes|
    ensures Step(s, op).mutexes[i].owner in {s.mutexes[i].owner, Some(s.mutexes[i].waiters[0])}
  {
    StepSync(s, op);
    BeginMutex(s, op, i);
  }

  lemma BeginCount(s: State, op: Op, i: nat)
    requires Known(s) && Enabled(s, op) && SyncOk(s) && i < |s.mutexes|
    ensures i < |Begin(s, op).s.mutexes|
    ensures var m, m' := s.mutexes[i], Begin(s, op).s.mutexes[i];
            && (m.owner.Some? ==>
                  if FinalUnlock(s, op, i) then m'.owner != m.owner
                  else
                    && m'.owner == m.owner
                    && m'.lockedCount == m.lockedCount + if m.owner != Some(s.cur) then 0
                                                         else if op == Lock(i) then 1 else if op == Unlock(i) then -1 else 0)
            && (m.owner == None && op == Lock(i) ==> m'.owner == Some(s.cur) && m'.lockedCount == 1)
            && (m.owner == None && op != Lock(i) ==> m'.owner == None)
            && (FinalUnlock(s, op, i) && m.waiters == [] ==> m'.owner == None && m'.lockedCount == 0)
  {
    hide DoTick, MutexOk, SemOk, Deeper, Shallower;
    TickSync(s);
    match op
    case Unlock(j) => Locked(s.mutexes[j]);
    case Lock(j) => Locked(s.mutexes[j]);
    case _ =>
  }

  lemma Locked(m: Mutex)
    requires MutexOk(m)
    ensures m.lockedCount >= 0 && (m.lockedCount == 0 <==> m.owner == None)
    ensures m.waiters != [] ==> m.owner != Some(m.waiters[0])
  {
    assert m.waiters != [] ==> m.waiters[0] in m.waiters;
  }

  /** `t` owns the mutex before and after each operation of the run. */
  ghost predicate Holds(s: State, ops: seq<Op>, i: nat, t: TaskId)
    requires Legal(s, ops)
    decreases |ops|
  {
    && i < |s.mutexes| && s.mutexes[i].owner == Some(t)
    && (ops == [] || Holds(Step(s, ops[0]), ops[1..], i, t))
  }

  /** The number of times that `t` carries out `op` during the run. */
  ghost function NumBy(s: State, ops: seq<Op>, op: Op, t: TaskId): nat
    requires Legal(s, ops)
    decreases |ops|
  {
    if ops == [] then 0 else (if ops[0] == op && s.cur == t then 1 else 0) + NumBy(Step(s, ops[0]), ops[1..], op, t)
  }

  /** While a task owns a mutex, the count goes up with its lock calls and down with its unlock calls only. */
  lemma {:induction false} HoldCount(s: State, ops: seq<Op>, i: nat, t: TaskId)
    requires Inv(s) && Legal(s, ops) && Holds(s, ops, i, t)
    ensures i < |Exec(s, ops).mutexes| && Exec(s, ops).mutexes[i].owner == Some(t)
    ensures Exec(s, ops).mutexes[i].lockedCount ==
            s.mutexes[i].lockedCount + NumBy(s, ops, Lock(i), t) - NumBy(s, ops, Unlock(i), t)
    decreases |ops|
  {
    hide Inv, Step, Begin, Enabled, Known, SyncOk, FinalUnlock;
    if ops != [] {
      StepInv(s, ops[0]);
      StepSync(s, ops[0]);
      InvSync(s);
      BeginCount(s, ops[0], i);
      HoldCount(Step(s, ops[0]), ops[1..], i, t);
    }
  }

  /**
   * A task that takes a free mutex loses it by exactly one operation: its own unlock call that matches the
   * first lock call, when all its later lock calls have been matched.
   */
  lemma NestedLocks(s: State, ops: seq<Op>, op: Op, i: nat)
    requires Inv(s) && s.cur != IDLE && i < |s.mutexes| && s.mutexes[i].owner == None
    requires Legal(s, [Lock(i)] + ops) && Known(s) && Holds(Step(s, Lock(i)), ops, i, s.cur)
    requires Legal(Exec(s, [Lock(i)] + ops), [op])
    ensures var e, s1 := Exec(s, [Lock(i)] + ops), Step(s, Lock(i));
            && Known(e) && Enabled(e, op) && i < |Step(e, op).mutexes|
            && (Step(e, op).mutexes[i].owner != Some(s.cur) <==>
                  && op == Unlock(i) && e.cur == s.cur
                  && NumBy(s1, ops, Unlock(i), s.cur) == NumBy(s1, ops, Lock(i), s.cur))
  {
    assert ([Lock(i)] + ops)[1..] == ops;
    var s1, e := Step(s, Lock(i)), Exec(s, [Lock(i)] + ops);
    OneStep(e, op);
    InvSync(s);
    StepInv(s, Lock(i));
    StepSync(s, Lock(i));
    BeginCount(s, Lock(i), i);
    HoldCount(s1, ops, i, s.cur);
    RunInv(s1, ops);
    InvSync(e);
    StepSync(e, op);
    BeginCount(e, op, i);
    hide Inv, Step, Begin, Enabled, Known, SyncOk;
  }

  /** A new mutex is free, a new semaphore has its count, and nothing waits at them; nothing else changes. */
  lemma NewOnesAreFree(s: State, op: Op)
    requires Inv(s) && Enabled(s, op) && (op.MutexInit? || op.SemInit?)
    ensures Known(s)
    ensures var e, k, n := Step(s, op), |s.mutexes|, |s.sems|;
            && e == s.(mutexes := e.mutexes, sems := e.sems) && s.mutexes <= e.mutexes && s.sems <= e.sems
            && (if op.MutexInit? then
                  && |e.mutexes| == k + 1 && e.sems == s.sems
                  && e.mutexes[k].owner == None && e.mutexes[k].lockedCount == 0 && e.mutexes[k].waiters == []
                else
                  && |e.sems| == n + 1 && e.mutexes == s.mutexes
                  && e.sems[n].count == op.init && e.sems[n].waiters == [])
  {
    InvKnown(s);
  }

  // ----- semaphores

  lemma BeginSem(s: State, op: Op, i: nat)
    requires Known(s) && Enabled(s, op) && i < |s.sems|
    ensures i < |Begin(s, op).s.sems|
    ensures var m, m' := s.sems[i], Begin(s, op).s.sems[i];
            && m'.init == m.init
            && m'.notifies == m.notifies + (if op == SemNotify(i) then 1 else 0)
            && m'.passes + |m'.waiters| == m.passes + |m.waiters| + (if op == SemWait(i) then 1 else 0)
            && (if op == SemNotify(i) && m.waiters != [] then
                  m.waiters == [m.waiters[0]] + m'.waiters && m'.served == m.served + [m.waiters[0]]
                else
                  m.waiters <= m'.waiters && m'.served == m.served)
  {
    hide DoTick;
    TickSync(s);
  }

  function NumOf(ops: seq<Op>, op: Op): nat
  {
    if ops == [] then 0 else (if ops[0] == op then 1 else 0) + NumOf(ops[1..], op)
  }

  /** The history in a semaphore counts the calls of the run. */
  lemma {:induction false} SemCounts(s: State, ops: seq<Op>, i: nat)
    requires Inv(s) && Legal(s, ops) && i < |s.sems|
    ensures i < |Exec(s, ops).sems|
    ensures var m, m' := s.sems[i], Exec(s, ops).sems[i];
            && m'.init == m.init
            && m'.notifies == m.notifies + NumOf(ops, SemNotify(i))
            && m'.passes + |m'.waiters| == m.passes + |m.waiters| + NumOf(ops, SemWait(i))
    decreases |ops|
  {
    if ops != [] {
      StepInv(s, ops[0]);
      StepSync(s, ops[0]);
      BeginSem(s, ops[0], i);
      hide Inv, Step, Begin, Enabled, Known;
      SemCounts(Step(s, ops[0]), ops[1..], i);
    }
  }

  /**
   * A semaphore created with `init` and then used by any run: the count and the waits let through add
   * up to `init` and the notifications; every wait either was let through or is in the wait list; with
   * `init >= 0` the count is never negative and tasks wait only at count 0.
   */
  lemma SemConservation(s: State, init: int, ops: seq<Op>)
    requires Inv(s) && Legal(s, [SemInit(init)] + ops)
    ensures var i, e := |s.sems|, Exec(s, [SemInit(init)] + ops);
            && i < |e.sems|
            && var m := e.sems[i];
               && m.passes + m.count == init + NumOf(ops, SemNotify(i))
               && m.passes + |m.waiters| == NumOf(ops, SemWait(i))
               && (init >= 0 ==> m.count >= 0 && (m.waiters != [] ==> m.count == 0))
               && (m.waiters != [] ==> m.count <= 0)
  {
    var all := [SemInit(init)] + ops;
    assert all[1..] == ops;
    StepInv(s, SemInit(init));
    StepSync(s, SemInit(init));
    SemCounts(Step(s, SemInit(init)), ops, |s.sems|);
    RunInv(s, all);
    assert SemOk(Exec(s, all).sems[|s.sems|]);
  }

  /** The first `n` notifications serve the first `n` waiters, in their order; nobody overtakes the others. */
  lemma {:induction false} SemFifo(s: State, ops: seq<Op>, i: nat)
    requires Inv(s) && Legal(s, ops) && i < |s.sems|
    requires NumOf(ops, SemNotify(i)) <= |s.sems[i].waiters|
    ensures i < |Exec(s, ops).sems|
    ensures var n, m, m' := NumOf(ops, SemNotify(i)), s.sems[i], Exec(s, ops).sems[i];
            m'.served == m.served + m.waiters[..n] && m.waiters[n..] <= m'.waiters
    decreases |ops|
  {
    hide Inv, Step, Begin, Enabled, Known;
    if ops != [] {
      var s1 := Step(s, ops[0]);
      StepInv(s, ops[0]);
      StepSync(s, ops[0]);
      BeginSem(s, ops[0], i);
      SemFifo(s1, ops[1..], i);
      var m, m1, m' := s.sems[i], s1.sems[i], Exec(s, ops).sems[i];
      var n1 := NumOf(ops[1..], SemNotify(i));
      if ops[0] == SemNotify(i) {
        ServedFirst(m.waiters, m1.waiters, n1, m.served, m'.served, m'.waiters);
      } else {
        ServedLater(m.waiters, m1.waiters, n1, m.served, m'.served, m'.waiters);
      }
    }
  }

  /** The waiter in position `k` waits until the next notification after the first `k`, which makes it ready. */
  lemma SemService(s: State, ops: seq<Op>, i: nat, k: nat)
    requires Inv(s) && Legal(s, ops) && i < |s.sems|
    requires k < |s.sems[i].waiters| && NumOf(ops, SemNotify(i)) == k
    ensures i < |Exec(s, ops).sems| && s.sems[i].waiters[k] in Exec(s, ops).sems[i].waiters
    ensures Enabled(Exec(s, ops), SemNotify(i)) ==>
              Known(Exec(s, ops)) && s.sems[i].waiters[k] in Step(Exec(s, ops), SemNotify(i)).ready
  {
    SemFifo(s, ops, i);
    RunInv(s, ops);
    var e := Exec(s, ops);
    var w := s.sems[i].waiters;
    assert w[k..][0] == w[k] && e.sems[i].waiters[0] == w[k];
    if Enabled(e, SemNotify(i)) {
      NotifyReady(e, i);
    }
  }

  lemma NotifyReady(s: State, i: nat)
    requires Inv(s) && Enabled(s, SemNotify(i)) && s.sems[i].waiters != []
    ensures Known(s) && s.sems[i].waiters[0] in Step(s, SemNotify(i)).ready
  {
    PlacedKnown(s);
    BeginKnown(s, SemNotify(i));
    CurReady(s);
    WakingKeepsHead(s, SemNotify(i));
    assert s.sems[i].waiters[0] in ListAt(s, SemQ(i));
    hide Placed, SlicesOk, SleepOk, SyncOk, SameOn;
  }
}
