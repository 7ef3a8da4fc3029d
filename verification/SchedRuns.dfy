/** Runs from the boot state: what holds in every reachable state, and where every task is. */
module SchedRuns {
  import opened Ints
  import opened Seqs
  import opened SchedModel
  import opened SchedInv
  import opened SchedSteps

  /** `ops` can be carried out one after the other from `s`. */
  ghost predicate Legal(s: State, ops: seq<Op>)
    decreases |ops|
  {
    ops == [] || (Known(s) && Enabled(s, ops[0]) && Legal(Step(s, ops[0]), ops[1..]))
  }

  ghost function Exec(s: State, ops: seq<Op>): State
    requires Legal(s, ops)
    decreases |ops|
  {
    if ops == [] then s else Exec(Step(s, ops[0]), ops[1..])
  }

  lemma StartInv()
    ensures Inv(START)
  {
    assert forall r :: ListAt(START, r) == if r == ReadyQ then [FIRST] else [];
  }

  lemma {:induction false} RunInv(s: State, ops: seq<Op>)
    requires Inv(s) && Legal(s, ops)
    ensures Inv(Exec(s, ops))
    ensures s.tasks.Keys <= Exec(s, ops).tasks.Keys
    decreases |ops|
  {
    if ops != [] {
      StepInv(s, ops[0]);
      RunInv(Step(s, ops[0]), ops[1..]);
    }
  }

  lemma {:induction false} LegalSplit(s: State, ops: seq<Op>, more: seq<Op>)
    requires Legal(s, ops + more)
    ensures Legal(s, ops) && Legal(Exec(s, ops), more)
    ensures Exec(s, ops + more) == Exec(Exec(s, ops), more)
    decreases |ops|
  {
    if ops == [] {
      assert ops + more == more;
    } else {
      hide Known, Enabled, Step;
      assert (ops + more)[1..] == ops[1..] + more;
      LegalSplit(Step(s, ops[0]), ops[1..], more);
    }
  }

  /** The state after the first `j` operations of a run. */
  ghost function After(s: State, ops: seq<Op>, j: nat): (e: State)
    requires Legal(s, ops) && j <= |ops|
    ensures Legal(s, ops[..j]) && e == Exec(s, ops[..j])
    ensures Legal(e, ops[j..]) && Exec(s, ops) == Exec(e, ops[j..])
  {
    assert ops == ops[..j] + ops[j..];
    LegalSplit(s, ops[..j], ops[j..]);
    Exec(s, ops[..j])
  }

  lemma AfterEnds(s: State, ops: seq<Op>)
    requires Legal(s, ops)
    ensures After(s, ops, 0) == s && After(s, ops, |ops|) == Exec(s, ops)
  {
    assert ops[..0] == [] && ops[..|ops|] == ops;
  }

  lemma OneStep(s: State, op: Op)
    requires Legal(s, [op])
    ensures Known(s) && Enabled(s, op) && Exec(s, [op]) == Step(s, op)
  {
    hide Known, Enabled, Step;
    assert [op][1..] == [];
    assert Exec(Step(s, op), []) == Step(s, op);
  }

  /** A run and one operation more. */
  lemma OneMore(s: State, ops: seq<Op>, op: Op, more: seq<Op>)
    requires Legal(s, more) && more == ops + [op]
    ensures Legal(s, ops) && Known(Exec(s, ops)) && Enabled(Exec(s, ops), op) && Exec(s, more) == Step(Exec(s, ops), op)
  {
    hide *;
    LegalSplit(s, ops, [op]);
    OneStep(Exec(s, ops), op);
  }

  /** One operation further on in a run. */
  lemma AfterNext(s: State, ops: seq<Op>, j: nat)
    requires Legal(s, ops) && j < |ops|
    ensures var e := After(s, ops, j); Known(e) && Enabled(e, ops[j]) && After(s, ops, j + 1) == Step(e, ops[j])
  {
    hide *;
    var e, e' := After(s, ops, j), After(s, ops, j + 1);
    TakeOneMore(ops, j);
    OneMore(s, ops[..j], ops[j], ops[..j + 1]);
  }

  /** A prefix of a prefix. */
  lemma AfterPrefix(s: State, ops: seq<Op>, j: nat, k: nat)
    requires Legal(s, ops) && k <= j <= |ops|
    ensures Legal(s, ops[..j]) && After(s, ops[..j], k) == After(s, ops, k)
  {
    hide *;
    var e, e' := After(s, ops, j), After(s, ops, k);
    assert ops[..j][..k] == ops[..k];
  }

  // ----- timer interrupts

  function NumTicks(ops: seq<Op>): nat
  {
    if ops == [] then 0 else (if ops[0].Tick? then 1 else 0) + NumTicks(ops[1..])
  }

  lemma BeginTicks(s: State, op: Op)
    requires Known(s) && Enabled(s, op)
    ensures Begin(s, op).s.ticks == s.ticks + if op.Tick? then 1 else 0
  {
  }

  lemma StepTicks(s: State, op: Op)
    requires Inv(s) && Enabled(s, op)
    ensures Known(s) && Step(s, op).ticks == s.ticks + if op.Tick? then 1 else 0
  {
    PlacedKnown(s);
    BeginTicks(s, op);
    if !op.Spawn? {
      hide Placed, SlicesOk, SleepOk, SyncOk, Begin, Dispatch;
      AllBegun(s, op);
      var e := Begin(s, op);
      if e.Dispatching? {
        DispatchOnce(e.s, e.rest);
      }
    }
  }

  lemma {:induction false} RunTicks(s: State, ops: seq<Op>)
    requires Inv(s) && Legal(s, ops)
    ensures Exec(s, ops).ticks == s.ticks + NumTicks(ops)
    decreases |ops|
  {
    if ops != [] {
      StepInv(s, ops[0]);
      StepTicks(s, ops[0]);
      RunTicks(Step(s, ops[0]), ops[1..]);
    }
  }

  /**
   * In every run each timer interrupt has either completed its walk over the sleepers or belongs to
   * a task suspended before that walk; such a task is ready but not running.
   */
  lemma TickConservation(ops: seq<Op>)
    requires Legal(START, ops)
    ensures var e := Exec(START, ops);
            && NumTicks(ops) == e.walks + |e.pending|
            && (forall t :: t in e.pending ==> t in e.ready && t != e.cur)
  {
    StartInv();
    RunInv(START, ops);
    RunTicks(START, ops);
  }

  /** In every run the processor runs the head of the ready list, or idles exactly when that is empty. */
  lemma WorkConservation(ops: seq<Op>)
    requires Legal(START, ops)
    ensures var e := Exec(START, ops);
            && (e.ready == [] <==> e.cur == IDLE)
            && (e.ready != [] ==> e.cur == e.ready[0])
  {
    StartInv();
    RunInv(START, ops);
    var e := Exec(START, ops);
    assert e.ready != [] ==> e.ready[0] in ListAt(e, ReadyQ);
  }

  lemma WakingKeepsHead(s: State, op: Op)
    requires Known(s) && Enabled(s, op) && (op.SemNotify? || op.Unlock?) && s.ready != []
    ensures Begin(s, op).s.cur == s.cur && NextRun(Begin(s, op).s) == NextRun(s)
    ensures Begin(s, op).Dispatching? ==> !Begin(s, op).rest
  {
  }

  /** Waking a waiter never takes the processor from the task that does it. */
  lemma WakingDoesNotSwitch(s: State, op: Op)
    requires Inv(s) && Enabled(s, op) && (op.SemNotify? || op.Unlock?)
    ensures Known(s) && Step(s, op).cur == s.cur
  {
    PlacedKnown(s);
    CurReady(s);
    BeginKnown(s, op);
    WakingKeepsHead(s, op);
    hide Begin, Placed, SyncOk;
  }

  // ----- no task is forgotten, unless it sleeps for no ticks

  ghost predicate OnExactlyOne(s: State, t: TaskId)
  {
    exists r :: t in ListAt(s, r) && forall r2 :: t in ListAt(s, r2) ==> r2 == r
  }

  /** The created tasks, other than the idle task, that are on no list. */
  ghost function Lost(s: State): set<TaskId>
  {
    set t | t in s.tasks && t != IDLE && !On(s, t)
  }

  lemma StepLost(s: State, op: Op)
    requires Inv(s) && Enabled(s, op)
    ensures Known(s) && Lost(Step(s, op)) == if NullSleep(op) then Lost(s) + {s.cur} else Lost(s)
  {
    hide *;
    StepInv(s, op);
    if op.Spawn? {
      SpawnLost(s, op);
    } else if NullSleep(op) {
      NullSleepLost(s, op);
    } else {
      SameLost(s, Step(s, op));
    }
  }

  lemma SameLost(s: State, s': State)
    requires SameOn(s, s') && s'.tasks.Keys == s.tasks.Keys
    ensures Lost(s') == Lost(s)
  {
    hide On;
  }

  lemma NullSleepLost(s: State, op: Op)
    requires Inv(s) && Enabled(s, op) && NullSleep(op) && Known(s)
    requires Leaves(s, Step(s, op), s.cur) && Step(s, op).tasks.Keys == s.tasks.Keys
    ensures Lost(Step(s, op)) == Lost(s) + {s.cur}
  {
    CurReady(s);
    hide Placed, SlicesOk, SleepOk, SyncOk, On, Step;
  }

  lemma SpawnLost(s: State, op: Op)
    requires Inv(s) && Enabled(s, op) && op.Spawn? && Known(s)
    requires Joins(s, Step(s, op), op.task) && Step(s, op).tasks.Keys == s.tasks.Keys + {op.task}
    ensures Lost(Step(s, op)) == Lost(s) && !NullSleep(op)
  {
    assert !On(s, op.task);
    hide Placed, SlicesOk, SleepOk, SyncOk, On, Step;
  }

  lemma {:induction false} RunLost(s: State, ops: seq<Op>)
    requires Inv(s) && Legal(s, ops)
    ensures Lost(s) <= Lost(Exec(s, ops))
    ensures Lost(Exec(s, ops)) == {} <==> Lost(s) == {} && forall i :: 0 <= i < |ops| ==> !NullSleep(ops[i])
    decreases |ops|
  {
    hide Inv, Enabled, Known, Step, Lost, NullSleep;
    if ops != [] {
      StepInv(s, ops[0]);
      StepLost(s, ops[0]);
      RunLost(Step(s, ops[0]), ops[1..]);
      assert forall i :: 0 < i < |ops| ==> ops[i] == ops[1..][i - 1];
    }
  }

  /** The milliseconds for which sleeping loses the caller: none, and those whose rounding up overflows. */
  lemma NullSleepWhen(ms: nat)
    requires ms < 0x1_0000_0000
    ensures NullSleep(SleepMs(ms)) <==> ms == 0 || ms > 0xffff_fff6
  {
  }

  /**
   * In every run each created task, other than the idle task, is on at most one list, and there once;
   * and all of them are on exactly one list if and only if no task slept for 0 or for more than
   * 2^32 - 10 milliseconds.
   */
  lemma TaskConservation(ops: seq<Op>)
    requires Legal(START, ops)
    ensures var e := Exec(START, ops);
            && (forall r :: Distinct(ListAt(e, r)))
            && (forall t, r1, r2 :: t in ListAt(e, r1) && t in ListAt(e, r2) ==> r1 == r2)
            && (forall r, t :: t in ListAt(e, r) ==> t in e.tasks && t != IDLE)
            && (forall t :: t in e.tasks ==> (t in e.sleeping <==> e.tasks[t].state == Asleep))
            && ((forall t :: t in e.tasks && t != IDLE ==> OnExactlyOne(e, t)) <==>
                (forall i :: 0 <= i < |ops| ==> !NullSleep(ops[i])))
  {
    StartInv();
    RunInv(START, ops);
    var e := Exec(START, ops);
    assert Lost(START) == {} by {
      assert FIRST in ListAt(START, ReadyQ);
    }
    RunLost(START, ops);
    forall t | t in e.tasks && t != IDLE ensures OnExactlyOne(e, t) <==> t !in Lost(e) {}
    assert Lost(e) == {} <==> forall t :: t in e.tasks && t != IDLE ==> OnExactlyOne(e, t) by {
      if Lost(e) != {} {
        var t :| t in Lost(e);
        assert !OnExactlyOne(e, t);
      }
    }
  }

  /** A task once on no list never runs again. */
  lemma LostForever(s: State, ops: seq<Op>, t: TaskId)
    requires Inv(s) && Legal(s, ops) && t in Lost(s)
    ensures t in Lost(Exec(s, ops)) && Exec(s, ops).cur != t
  {
    RunInv(s, ops);
    RunLost(s, ops);
    var e := Exec(s, ops);
    if e.cur != IDLE { CurReady(e); }
  }

  /** Sleeping for no time from the boot state leaves the first task on no list. */
  lemma ZeroSleepLosesTheCaller()
    ensures Legal(START, [SleepMs(0)]) && FIRST in Lost(Exec(START, [SleepMs(0)]))
  {
    StartInv();
    StepLost(START, SleepMs(0));
    assert [SleepMs(0)][1..] == [];
    assert Legal(Step(START, SleepMs(0)), []);
  }
}
