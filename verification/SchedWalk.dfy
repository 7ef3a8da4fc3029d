/** The walk over the sleep list, one task at a time, against what it amounts to in the end. */
module SchedWalk {
  import opened Seqs
  import opened SchedModel
  import opened SchedInv

  /** The state when the walk has passed the first `k` of the sleepers it found. */
  ghost function WalkPrefix(s: State, k: nat): State
    requires k <= |s.sleeping|
  {
    var l := s.sleeping[..k];
    s.(sleeping := NotDue(l, s.tasks) + s.sleeping[k..],
       ready := s.ready + Due(l, s.tasks),
       tasks := SleptAll(l, s.tasks))
  }

  lemma {:induction false} DueAppend(l: seq<TaskId>, t: TaskId, tasks: map<TaskId, Tcb>)
    ensures Due(l + [t], tasks) == Due(l, tasks) + Due([t], tasks)
    ensures NotDue(l + [t], tasks) == NotDue(l, tasks) + NotDue([t], tasks)
  {
    if l == [] {
      assert l + [t] == [t];
    } else {
      assert (l + [t])[1..] == l[1..] + [t];
      DueAppend(l[1..], t, tasks);
      DueFirst(l + [t], tasks);
      DueFirst(l, tasks);
      hide Due, NotDue;
    }
  }

  lemma DueFirst(l: seq<TaskId>, tasks: map<TaskId, Tcb>)
    requires l != []
    ensures var due := l[0] in tasks && tasks[l[0]].sleepTicks == 1;
            && Due(l, tasks) == (if due then [l[0]] else []) + Due(l[1..], tasks)
            && NotDue(l, tasks) == (if due then [] else [l[0]]) + NotDue(l[1..], tasks)
  {
  }

  lemma WalkPrefixStart(s: State)
    ensures WalkPrefix(s, 0) == s
  {
    assert SleptAll([], s.tasks) == s.tasks;
  }

  lemma WalkPrefixEnd(s: State)
    ensures WalkPrefix(s, |s.sleeping|).(walks := s.walks + 1) == Walk(s)
  {
    assert s.sleeping[..|s.sleeping|] == s.sleeping;
  }

  /** The next sleeper with one tick less. */
  ghost function Counted(p: State, t: TaskId): State
    requires t in p.tasks
  {
    p.(tasks := p.tasks[t := p.tasks[t].(sleepTicks := p.tasks[t].sleepTicks - 1)])
  }

  /** Where the walk stands before the sleeper `k`: that task is still as it was, after those not woken. */
  lemma WalkPrefixAt(s: State, k: nat)
    requires Placed(s) && k < |s.sleeping|
    ensures var p, t, j := WalkPrefix(s, k), s.sleeping[k], |NotDue(s.sleeping[..k], s.tasks)|;
            && t in p.tasks && t in s.tasks && t != IDLE && p.tasks[t] == s.tasks[t]
            && j < |p.sleeping| && p.sleeping[j] == t && p.sleeping[j..] == s.sleeping[k..]
  {
    assert s.sleeping == ListAt(s, SleepQ) && s.sleeping[k] in ListAt(s, SleepQ);
    assert s.sleeping[k] !in s.sleeping[..k];
  }

  lemma {:induction false} WithoutAfter<T>(a: seq<T>, t: T, b: seq<T>)
    requires t !in a
    ensures Without(a + [t] + b, t) == a + b
  {
    if a == [] {
      assert a + [t] + b == [t] + b && a + b == b;
    } else {
      assert (a + [t] + b)[1..] == a[1..] + [t] + b;
      WithoutAfter(a[1..], t, b);
      assert [a[0]] + (a[1..] + b) == a + b;
    }
  }

  lemma WalkPrefixIs(s: State, k: nat)
    requires k <= |s.sleeping|
    ensures var l := s.sleeping[..k];
            WalkPrefix(s, k) == s.(sleeping := NotDue(l, s.tasks) + s.sleeping[k..],
                                   ready := s.ready + Due(l, s.tasks),
                                   tasks := SleptAll(l, s.tasks))
  {
  }

  /** One sleeper more has lost a tick. */
  lemma SleptMore(l: seq<TaskId>, t: TaskId, tasks: map<TaskId, Tcb>)
    requires t in tasks && t !in l
    ensures t in SleptAll(l, tasks) && SleptAll(l, tasks)[t] == tasks[t]
    ensures SleptAll(l + [t], tasks) == SleptAll(l, tasks)[t := Slept(tasks[t])]
  {
  }

  lemma DueOne(t: TaskId, tasks: map<TaskId, Tcb>)
    requires t in tasks
    ensures Due([t], tasks) == if tasks[t].sleepTicks == 1 then [t] else []
    ensures NotDue([t], tasks) == if tasks[t].sleepTicks == 1 then [] else [t]
  {
    DueFirst([t], tasks);
  }

  lemma NotBefore(s: State, k: nat)
    requires Placed(s) && k < |s.sleeping|
    ensures s.sleeping[k] !in s.sleeping[..k] && s.sleeping[k] != IDLE
  {
    assert s.sleeping == ListAt(s, SleepQ) && s.sleeping[k] in ListAt(s, SleepQ);
    assert Distinct(ListAt(s, SleepQ));
    hide Placed;
  }

  /** The walk with one sleeper more, from the parts of the walk before it. */
  lemma WalkPrefixNext(s: State, k: nat)
    requires Placed(s) && k < |s.sleeping| && s.sleeping[k] in s.tasks
    ensures var p, l, t := WalkPrefix(s, k), s.sleeping[..k], s.sleeping[k];
            && t != IDLE && t in p.tasks && p.tasks[t] == s.tasks[t] && t !in NotDue(l, s.tasks)
            && p.sleeping == NotDue(l, s.tasks) + [t] + s.sleeping[k + 1..]
            && WalkPrefix(s, k + 1) ==
               if s.tasks[t].sleepTicks == 1 then
                 p.(sleeping := NotDue(l, s.tasks) + s.sleeping[k + 1..], ready := p.ready + [t],
                    tasks := p.tasks[t := Slept(s.tasks[t])])
               else p.(tasks := p.tasks[t := Slept(s.tasks[t])])
  {
    var l, t, rest := s.sleeping[..k], s.sleeping[k], s.sleeping[k + 1..];
    DueMembers(l, s.tasks);
    hide *;
    WalkPrefixIs(s, k);
    WalkPrefixIs(s, k + 1);
    TakeOneMore(s.sleeping, k);
    DropOneLess(s.sleeping, k);
    DueAppend(l, t, s.tasks);
    DueOne(t, s.tasks);
    NotBefore(s, k);
    SleptMore(l, t, s.tasks);
    Associate(NotDue(l, s.tasks), [t], rest);
    Associate(s.ready, Due(l, s.tasks), [t]);
    Nothing(Due(l, s.tasks));
    Nothing(NotDue(l, s.tasks));
  }

  lemma Nothing<T>(s: seq<T>)
    ensures s + [] == s
  {
  }

  /** The sleeper `k` stays: its ticks are counted down. */
  lemma WalkPrefixStays(s: State, k: nat)
    requires Placed(s) && k < |s.sleeping| && s.sleeping[k] in s.tasks && s.tasks[s.sleeping[k]].sleepTicks != 1
    ensures s.sleeping[k] in WalkPrefix(s, k).tasks
    ensures Counted(WalkPrefix(s, k), s.sleeping[k]) == WalkPrefix(s, k + 1)
  {
    hide Placed, WalkPrefix;
    WalkPrefixNext(s, k);
  }

  /** The sleeper `k` is due: it leaves the sleep list and joins the ready list. */
  lemma WalkPrefixWakes(s: State, k: nat)
    requires Placed(s) && k < |s.sleeping| && s.sleeping[k] in s.tasks && s.tasks[s.sleeping[k]].sleepTicks == 1
    ensures s.sleeping[k] in WalkPrefix(s, k).tasks && s.sleeping[k] in WalkPrefix(s, k).sleeping
    ensures var t := s.sleeping[k];
            var p1 := Counted(WalkPrefix(s, k), t);
            SetReady(p1.(sleeping := Without(p1.sleeping, t)), t) == WalkPrefix(s, k + 1)
  {
    hide Placed, WalkPrefix, Without, NotDue, Due;
    WalkPrefixNext(s, k);
    WithoutAfter(NotDue(s.sleeping[..k], s.tasks), s.sleeping[k], s.sleeping[k + 1..]);
  }
}
