/** The semaphores of the kernel, on its objects. */
module Semaphores {
  import opened Kernel
  import opened KernelSteps
  import opened Lists
  import opened SchedInv
  import opened SchedModel

  /** Writing the count of one semaphore disturbs nothing else. */
  twostate lemma SemWritten(k: TaskManager, new s: State, new i: nat)
    requires old(k.Represents(s)) && unchanged(k) && i < |k.sems|
    requires forall o: object :: o in old(k.repr) && o != k.sems[i] ==> unchanged(o)
    ensures i < |s.sems| && k.Represents(s.(sems := s.sems[i := s.sems[i].(count := k.sems[i].count)]))
  {
    hide *;
    k.OneWritten(s, k.sems[i]);
    k.GetPlaced(s);
    SemFields(k, s, i);
    var s' := s.(sems := s.sems[i := s.sems[i].(count := k.sems[i].count)]);
    SemLists(s, s', i);
    k.StillOwned(s);
    k.TasksSame(s, s');
    k.LinksSame(s, s');
    k.Represented(s');
  }

  twostate lemma SemFields(k: TaskManager, new s: State, new i: nat)
    requires old(k.Represents(s)) && unchanged(k) && i < |k.sems|
    requires forall j :: 0 <= j < |k.sems| && k.sems[j] != k.sems[i] ==> unchanged(k.sems[j])
    requires forall j :: 0 <= j < |k.mutexes| ==> unchanged(k.mutexes[j])
    ensures i < |s.sems| && k.Owned() && k.SyncsOk(s.(sems := s.sems[i := s.sems[i].(count := k.sems[i].count)]))
  {
    hide Placed, TaskManager.LinksOk, TaskManager.TasksOk, TaskManager.ListsOwned;
  }

  /** Set the count of a semaphore; `s'` is the state that this makes, with its history. */
  method StoreCount(k: TaskManager, sem: KernelSem, count: int, ghost i: nat, ghost s: State, ghost s': State)
    requires k.Represents(s) && i < |k.sems| && k.sems[i] == sem
    requires i < |s.sems| && SameKernel(s.(sems := s.sems[i := s.sems[i].(count := count)]), s')
    modifies k.repr - {k}
    ensures k.Represents(s')
  {
    hide *;
    k.GetSem(s, i);
    ghost var s1 := s.(sems := s.sems[i := s.sems[i].(count := count)]);
    sem.count := count;
    SemWritten(k, s, i);
    k.SameRepresented(s1, s');
  }

  method SemWait(k: TaskManager, sem: KernelSem, ghost i: nat, ghost s: State)
    requires k.Represents(s) && Inv(s) && i < |k.sems| && k.sems[i] == sem && Enabled(s, Op.SemWait(i))
    requires k.currTask != null
    modifies k.repr - {k}, k`currTask
    ensures k.currTask != null
    ensures Known(s) && Inv(Step(s, Op.SemWait(i))) && k.Represents(Step(s, Op.SemWait(i)))
  {
    hide *;
    StepIs(s, Op.SemWait(i));
    k.GetSem(s, i);
    k.GetCurr(s);
    SemWaitIs(s, i);
    ghost var s' := Begin(s, Op.SemWait(i)).s;
    if sem.count > 0 {
      StoreCount(k, sem, sem.count - 1, i, s, s');
    } else {
      k.BlockOn(sem.waitList, SemQ(i), s, s');
      var _ := k.TaskDispatch(false, s');
    }
  }

  method SemNotify(k: TaskManager, sem: KernelSem, ghost i: nat, ghost s: State)
    requires k.Represents(s) && Inv(s) && i < |k.sems| && k.sems[i] == sem && Enabled(s, Op.SemNotify(i))
    requires k.currTask != null
    modifies k.repr - {k}, k`currTask
    ensures k.currTask != null
    ensures Known(s) && Inv(Step(s, Op.SemNotify(i))) && k.Represents(Step(s, Op.SemNotify(i)))
  {
    hide *;
    StepIs(s, Op.SemNotify(i));
    k.GetSem(s, i);
    SemNotifyIs(s, i);
    ghost var s' := Begin(s, Op.SemNotify(i)).s;
    if sem.waitList.count != 0 {
      var _ := k.ReleaseFirst(sem.waitList, SemQ(i), s, s');
      var _ := k.TaskDispatch(false, s');
    } else {
      StoreCount(k, sem, sem.count + 1, i, s, s');
    }
  }

  twostate lemma SemAdded(k: TaskManager, new s: State, new s': State, new sem: KernelSem, new init: int)
    requires old(k.Represents(s)) && unchanged(k`currTask, k`tasks, k`mutexes)
    requires k.sems == old(k.sems) + [sem] && k.lists == old(k.lists)[SemQ(|old(k.sems)|) := sem.waitList]
    requires k.repr == old(k.repr) + {sem, sem.waitList} && sem !in old(k.repr) && sem.waitList !in old(k.repr)
    requires sem.count == init && sem.waitList.Valid() && sem.waitList.nodes == []
    requires forall o: object :: o in old(k.repr) && o != k ==> unchanged(o)
    requires s' == s.(sems := s.sems + [Sem(init, [], init, [], [], 0, 0)])
    ensures k.Represents(s')
  {
    hide *;
    k.GetPlaced(s);
    SemAddedOwned(k, s, s', sem, init);
    AddedLists(s, s');
    k.Grown(s, s');
  }

  twostate lemma SemAddedOwned(k: TaskManager, new s: State, new s': State, new sem: KernelSem, new init: int)
    requires old(k.Represents(s)) && unchanged(k`currTask, k`tasks, k`mutexes)
    requires k.sems == old(k.sems) + [sem] && k.lists == old(k.lists)[SemQ(|old(k.sems)|) := sem.waitList]
    requires k.repr == old(k.repr) + {sem, sem.waitList} && sem !in old(k.repr) && sem.waitList !in old(k.repr)
    requires sem.count == init
    requires forall o: object :: o in old(k.repr) && o != k ==> unchanged(o)
    requires s' == s.(sems := s.sems + [Sem(init, [], init, [], [], 0, 0)])
    ensures k.Owned() && k.TasksOk(s') && k.SyncsOk(s')
    ensures |s.sems| == |old(k.sems)| && SemQ(|old(k.sems)|) !in old(k.lists)
  {
    hide TaskManager.Represents, TaskManager.TasksOk, TaskManager.SyncsOk, TaskManager.ListsOwned, TaskManager.Owned;
    k.OldObjects(s);
    SemListsOwned(k, s, sem);
    k.ObjectsOwned(s);
    k.TasksSame(s, s');
    SemAddedSyncs(k, s, s', sem, init);
  }

  twostate lemma SemListsOwned(k: TaskManager, new s: State, new sem: KernelSem)
    requires old(k.Represents(s)) && unchanged(k`mutexes)
    requires k.sems == old(k.sems) + [sem] && k.lists == old(k.lists)[SemQ(|old(k.sems)|) := sem.waitList]
    requires old(k.repr) <= k.repr && sem.waitList in k.repr && sem.waitList !in old(k.repr)
    ensures k.ListsOwned()
  {
    hide Placed, TaskManager.LinksOk, TaskManager.TasksOk, TaskManager.SyncsOk;
  }

  twostate lemma SemAddedSyncs(k: TaskManager, new s: State, new s': State, new sem: KernelSem, new init: int)
    requires old(k.Represents(s)) && k.Owned() && unchanged(k`tasks, k`mutexes)
    requires k.sems == old(k.sems) + [sem] && sem.count == init
    requires forall i :: 0 <= i < |old(k.sems)| ==> unchanged(old(k.sems)[i])
    requires forall i :: 0 <= i < |old(k.mutexes)| ==> unchanged(old(k.mutexes)[i])
    requires s' == s.(sems := s.sems + [Sem(init, [], init, [], [], 0, 0)])
    ensures k.SyncsOk(s')
  {
    hide Placed, TaskManager.LinksOk, TaskManager.TasksOk, TaskManager.ListsOwned;
  }

  method SemInit(k: TaskManager, init: int, ghost s: State) returns (sem: KernelSem)
    requires k.Represents(s) && Inv(s) && Enabled(s, Op.SemInit(init))
    modifies k
    ensures fresh(k.repr - old(k.repr)) && k.sems == old(k.sems) + [sem] && k.currTask == old(k.currTask)
    ensures sem.count == init && sem.waitList.nodes == []
    ensures Known(s) && Inv(Step(s, Op.SemInit(init))) && k.Represents(Step(s, Op.SemInit(init)))
  {
    hide *;
    ghost var s' := s.(sems := s.sems + [Sem(init, [], init, [], [], 0, 0)]);
    StepIs(s, Op.SemInit(init));
    InitIs(s, init);
    sem := new KernelSem(init);
    k.lists := k.lists[SemQ(|k.sems|) := sem.waitList];
    k.sems := k.sems + [sem];
    k.repr := k.repr + {sem, sem.waitList};
    SemAdded(k, s, s', sem, init);
  }
}
