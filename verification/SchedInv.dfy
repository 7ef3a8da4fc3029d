/** The invariant of the scheduler, and its preservation by every operation in every run. */
module SchedInv {
  import opened Ints
  import opened Seqs
  import opened SchedModel

  // ----- placement: which list a task is on

  /** The lists of the kernel: ready, sleeping, one wait list for each semaphore and each mutex. */
  datatype ListRef = ReadyQ | SleepQ | SemQ(i: nat) | MutexQ(i: nat)

  function ListAt(s: State, r: ListRef): seq<TaskId>
  {
    match r
    case ReadyQ => s.ready
    case SleepQ => s.sleeping
    case SemQ(i) => if i < |s.sems| then s.sems[i].waiters else []
    case MutexQ(i) => if i < |s.mutexes| then s.mutexes[i].waiters else []
  }

  ghost predicate On(s: State, t: TaskId)
  {
    exists r :: t in ListAt(s, r)
  }

  /** The same tasks are on some list; one task joins them; one task leaves them. */
  ghost predicate SameOn(s: State, s': State)
  {
    forall x :: On(s', x) <==> On(s, x)
  }

  ghost predicate Joins(s: State, s': State, t: TaskId)
  {
    On(s', t) && forall x :: x != t ==> (On(s', x) <==> On(s, x))
  }

  ghost predicate Leaves(s: State, s': State, t: TaskId)
  {
    !On(s', t) && forall x :: x != t ==> (On(s', x) <==> On(s, x))
  }

  lemma LeavesThenJoins(s: State, s1: State, s2: State, t: TaskId)
    requires On(s, t) && Leaves(s, s1, t) && Joins(s1, s2, t)
    ensures SameOn(s, s2)
  {
  }

  /** No task twice on a list or on two lists; only created tasks, and never the idle task. */
  ghost predicate Placed(s: State)
  {
    && IDLE in s.tasks && s.cur in s.tasks
    && (forall r :: Distinct(ListAt(s, r)))
    && (forall r1, r2, t :: t in ListAt(s, r1) && t in ListAt(s, r2) ==> r1 == r2)
    && (forall r, t :: t in ListAt(s, r) ==> t in s.tasks && t != IDLE)
  }

  lemma PlacedKnown(s: State)
    requires Placed(s)
    ensures Known(s)
  {
    assert s.ready == ListAt(s, ReadyQ) && s.sleeping == ListAt(s, SleepQ);
    assert forall i :: 0 <= i < |s.sems| ==> s.sems[i].waiters == ListAt(s, SemQ(i));
    assert forall i :: 0 <= i < |s.mutexes| ==> s.mutexes[i].waiters == ListAt(s, MutexQ(i));
  }

  /** The lists of `s'` are those of `s` with `l` in the place of the list `at`. */
  ghost predicate Replaced(s: State, s': State, at: ListRef, l: seq<TaskId>)
  {
    && s'.tasks.Keys == s.tasks.Keys && s'.cur == s.cur
    && forall r :: ListAt(s', r) == if r == at then l else ListAt(s, r)
  }

  lemma PlacedDrop(s: State, s': State, at: ListRef, t: TaskId)
    requires Placed(s) && Replaced(s, s', at, Without(ListAt(s, at), t)) && t in ListAt(s, at)
    ensures Placed(s')
    ensures Leaves(s, s', t)
  {
    WithoutMembers(ListAt(s, at), t);
    forall r, x ensures x in ListAt(s', r) <==> x in ListAt(s, r) && x != t {}
    forall x | x != t ensures On(s', x) <==> On(s, x) {
      if On(s, x) {
        var r :| x in ListAt(s, r);
        assert x in ListAt(s', r);
      }
    }
  }

  lemma PlacedPush(s: State, s': State, at: ListRef, t: TaskId)
    requires Placed(s) && Replaced(s, s', at, ListAt(s, at) + [t])
    requires t in s.tasks && t != IDLE && !On(s, t)
    ensures Placed(s')
    ensures Joins(s, s', t)
  {
    forall r, x ensures x in ListAt(s', r) <==> x in ListAt(s, r) || (r == at && x == t) {}
    assert t in ListAt(s', at);
    forall x | x != t ensures On(s', x) <==> On(s, x) {
      if On(s, x) {
        var r :| x in ListAt(s, r);
        assert x in ListAt(s', r);
      }
      if On(s', x) {
        var r :| x in ListAt(s', r);
        assert x in ListAt(s, r);
      }
    }
  }

  /** Nothing about placement depends on the fields of the tasks, the counters or the history. */
  lemma PlacedSame(s: State, s': State)
    requires Placed(s) && s'.tasks.Keys >= s.tasks.Keys && s'.cur in s'.tasks
    requires forall r :: ListAt(s', r) == ListAt(s, r)
    ensures Placed(s')
    ensures SameOn(s, s')
  {
    forall x ensures On(s', x) <==> On(s, x) {
      if On(s, x) {
        var r :| x in ListAt(s, r);
        assert x in ListAt(s', r);
      }
    }
  }

  // ----- the other parts of the invariant

  ghost predicate SlicesOk(s: State)
  {
    forall t :: t in s.tasks ==>
      s.tasks[t].timeTicks == TASK_TIME_SLICE_DEFAULT && 1 <= s.tasks[t].sliceTicks <= TASK_TIME_SLICE_DEFAULT
  }

  /** The state Asleep marks exactly the tasks on the sleep list, and they have ticks left. */
  ghost predicate SleepOk(s: State)
  {
    forall t :: t in s.tasks ==>
      && (t in s.sleeping <==> s.tasks[t].state == Asleep)
      && (t in s.sleeping ==> s.tasks[t].sleepTicks >= 1)
  }

  ghost predicate SemOk(m: Sem)
  {
    && m.passes + m.count == m.init + m.notifies
    && m.count >= (if m.init < 0 then m.init else 0)
    && (m.waiters != [] ==> m.count <= 0)
    && m.queued == m.served + m.waiters
    && m.count <= INT_MAX
  }

  ghost predicate MutexOk(m: Mutex)
  {
    && 0 <= m.lockedCount <= INT_MAX
    && (m.lockedCount == 0 <==> m.owner == None)
    && (m.waiters != [] ==> m.lockedCount > 0)
    && (m.owner.Some? ==> m.owner.value !in m.waiters)
    && m.queued == m.handed + m.waiters
    && (forall t: TaskId :: Depth(m, t) == if m.owner == Some(t) then m.lockedCount else 0)
  }

  ghost predicate SyncOk(s: State)
  {
    && (forall i :: 0 <= i < |s.sems| ==> SemOk(s.sems[i]))
    && (forall i :: 0 <= i < |s.mutexes| ==> MutexOk(s.mutexes[i]))
  }

  /** What also holds half way through an operation, before it dispatches. */
  ghost predicate Core(s: State)
  {
    && Placed(s) && SlicesOk(s) && SleepOk(s) && SyncOk(s)
    && (forall t :: t in s.pending ==> t in s.ready)
    && s.cur !in s.pending
  }

  /** Every timer interrupt has done its walk or is suspended before it. */
  ghost predicate Balanced(s: State)
  {
    s.ticks == s.walks + |s.pending|
  }

  /** The processor runs the head of the ready list, or the idle task exactly when that is empty. */
  ghost predicate Settled(s: State)
  {
    s.cur == NextRun(s)
  }

  ghost predicate Inv(s: State)
  {
    Core(s) && Balanced(s) && Settled(s)
  }

  // ----- the walk

  lemma DueDistinct(l: seq<TaskId>, tasks: map<TaskId, Tcb>)
    requires Distinct(l)
    ensures Distinct(Due(l, tasks)) && Distinct(NotDue(l, tasks))
  {
    if l != [] {
      DueDistinct(l[1..], tasks);
      DueMembers(l[1..], tasks);
      assert l[0] !in l[1..];
    }
  }

  lemma WalkPlaced(s: State)
    requires Placed(s)
    ensures Placed(Walk(s))
    ensures SameOn(s, Walk(s))
  {
    var s' := Walk(s);
    var due, rest := Due(s.sleeping, s.tasks), NotDue(s.sleeping, s.tasks);
    assert s.ready == ListAt(s, ReadyQ) && s.sleeping == ListAt(s, SleepQ);
    DueMembers(s.sleeping, s.tasks);
    DueDistinct(s.sleeping, s.tasks);
    forall x | x in s.ready ensures x !in s.sleeping {
      assert x in ListAt(s, ReadyQ);
      assert x in ListAt(s, SleepQ) ==> ReadyQ == SleepQ;
    }
    forall r ensures ListAt(s', r) == if r == ReadyQ then s.ready + due else if r == SleepQ then rest else ListAt(s, r) {}
    forall r ensures Distinct(ListAt(s', r)) {
      assert Distinct(ListAt(s, r));
      if r == ReadyQ { DistinctConcat(s.ready, due); }
    }
    forall r, x | x in ListAt(s', r)
      ensures x in s.tasks && x != IDLE
      ensures (x in ListAt(s, r) || (r == ReadyQ && x in ListAt(s, SleepQ)))
    {
      if r == ReadyQ && x !in s.ready { assert x in ListAt(s, SleepQ); }
    }
    forall r1, r2, x | x in ListAt(s', r1) && x in ListAt(s', r2) ensures r1 == r2 {
      if x in s.sleeping {
        assert x in ListAt(s, SleepQ);
        assert x in due <==> x !in rest;
      }
    }
    forall x ensures On(s', x) <==> On(s, x) {
      if On(s, x) {
        var r :| x in ListAt(s, r);
        assert x in ListAt(s', if x in due then ReadyQ else r);
      }
      if On(s', x) {
        var r :| x in ListAt(s', r);
        assert x in ListAt(s, r) || x in ListAt(s, SleepQ);
      }
    }
  }

  lemma WalkCore(s: State)
    requires Core(s)
    ensures Core(Walk(s))
    ensures s.ready != [] ==> NextRun(Walk(s)) == NextRun(s)
  {
    WalkPlaced(s);
    DueMembers(s.sleeping, s.tasks);
    assert forall t :: t in s.sleeping ==> t in ListAt(s, SleepQ);
  }

  // ----- the dispatcher

  lemma SwitchCore(s: State, rest: bool)
    requires Core(s) && NextRun(s) != s.cur
    requires rest ==> s.cur in s.ready
    ensures NextRun(s) in s.tasks
    ensures var s1 := Switch(s, NextRun(s), rest); Core(s1) && Settled(s1) && SameOn(s, s1)
  {
    PlacedKnown(s);
    var s1 := Switch(s, NextRun(s), rest);
    PlacedSame(s, s1);
    if s.ready != [] {
      assert NextRun(s) in ListAt(s, ReadyQ);
      assert NextRun(s) !in ListAt(s, SleepQ);
    } else {
      assert IDLE !in ListAt(s, SleepQ);
    }
  }

  /**
   * A dispatch switches at most once: a task resumed in the timer interrupt stays the head of the
   * ready list while it walks, so its own dispatch returns to it.
   */
  lemma DispatchOnce(s: State, rest: bool)
    requires Core(s)
    requires rest ==> s.cur in s.ready
    ensures Known(s)
    ensures Dispatch(s, rest) ==
            var to := NextRun(s);
            if to == s.cur then s
            else if to in s.pending then Walk(Switch(s, to, rest))
            else Switch(s, to, rest)
  {
    PlacedKnown(s);
    var to := NextRun(s);
    if to != s.cur && to in s.pending {
      SwitchCore(s, rest);
      var s1 := Switch(s, to, rest);
      WalkCore(s1);
      PlacedKnown(Walk(s1));
      assert Dispatch(Walk(s1), false) == Walk(s1);
    }
  }

  lemma DispatchInv(s: State, rest: bool)
    requires Core(s)
    requires s.ticks == s.walks + |s.pending| + (if rest then 1 else 0)
    requires rest ==> s.cur in s.ready && NextRun(s) != s.cur
    ensures Known(s)
    ensures Inv(Dispatch(s, rest))
    ensures SameOn(s, Dispatch(s, rest))
    ensures Dispatch(s, rest).tasks.Keys == s.tasks.Keys
  {
    hide *;
    DispatchOnce(s, rest);
    CoreFacts(s);
    var to := NextRun(s);
    if to != s.cur {
      SwitchCore(s, rest);
      SwitchPending(s, to, rest);
      var s1 := Switch(s, to, rest);
      SwitchFrame(s, to, rest);
      if to in s.pending {
        CoreFacts(s1);
        WalkCore(s1);
        WalkPlaced(s1);
        WalkFrame(s1);
        SameOnTrans(s, s1, Walk(s1));
        InvFrom(Walk(s1));
      } else {
        InvFrom(s1);
      }
    } else {
      SameOnRefl(s);
      InvFrom(s);
    }
  }

  lemma CoreFacts(s: State)
    requires Core(s)
    ensures Placed(s) && s.cur !in s.pending && forall t :: t in s.pending ==> t in s.ready
    ensures Settled(s) <==> s.cur == NextRun(s)
    ensures NextRun(s) in s.pending ==> s.ready != []
  {
  }

  lemma SwitchFrame(s: State, to: TaskId, rest: bool)
    requires to in s.tasks
    ensures var s1 := Switch(s, to, rest);
            && s1.ticks == s.ticks && s1.walks == s.walks && s1.ready == s.ready && s1.tasks.Keys == s.tasks.Keys && s1.cur == to
            && NextRun(s1) == NextRun(s)
  {
  }

  lemma WalkFrame(s: State)
    ensures Walk(s).ticks == s.ticks && Walk(s).walks == s.walks + 1 && Walk(s).pending == s.pending
    ensures Walk(s).cur == s.cur && Walk(s).tasks.Keys == s.tasks.Keys
  {
  }

  lemma InvFrom(s: State)
    requires Core(s) && s.ticks == s.walks + |s.pending| && s.cur == NextRun(s)
    ensures Inv(s)
  {
  }

  /** A switch suspends at most one walk, that of the caller, and takes up at most one, that of `to`. */
  lemma SwitchPending(s: State, to: TaskId, rest: bool)
    requires to in s.tasks && to != s.cur && s.cur !in s.pending
    ensures |Switch(s, to, rest).pending| ==
            |s.pending| + (if rest then 1 else 0) - (if to in s.pending then 1 else 0)
  {
    var base := if rest then s.pending + {s.cur} else s.pending;
    assert to !in base ==> base - {to} == base;
  }

  lemma SameOnRefl(s: State)
    ensures SameOn(s, s)
  {
  }

  lemma SameOnTrans(s: State, s1: State, s2: State)
    requires SameOn(s, s1) && SameOn(s1, s2)
    ensures SameOn(s, s2)
  {
  }
}
