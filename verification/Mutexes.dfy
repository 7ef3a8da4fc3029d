/** The mutexes of the kernel, on its objects. */
module Mutexes {
  import opened Kernel
  import opened KernelSteps
  import opened Lists
  import opened SchedInv
  import opened SchedModel
  import opened Seqs

  /** `owner` is the task that the state means by `t`. */
  ghost predicate OwnerIs(k: TaskManager, owner: Task?, t: Option<TaskId>)
    reads k`tasks
  {
    match t
    case None => owner == null
    case Some(x) => x in k.tasks && owner == k.tasks[x]
  }

  /** Writing one mutex disturbs nothing else. */
  twostate lemma MutexWritten(k: TaskManager, new s: State, new i: nat, new m: Mutex)
    requires old(k.Represents(s)) && unchanged(k) && i < |k.mutexes|
    requires forall o: object :: o in old(k.repr) && o != k.mutexes[i] ==> unchanged(o)
    requires k.MutexFields(k.mutexes[i], m) && i < |s.mutexes| && m.waiters == s.mutexes[i].waiters
    ensures k.Represents(s.(mutexes := s.mutexes[i := m]))
  {
    hide *;
    k.OneWritten(s, k.mutexes[i]);
    k.GetPlaced(s);
    MutexFieldsKept(k, s, i, m);
    var s' := s.(mutexes := s.mutexes[i := m]);
    MutexLists(s, s', i);
    k.StillOwned(s);
    k.TasksSame(s, s');
    k.LinksSame(s, s');
    k.Represented(s');
  }

  twostate lemma MutexFieldsKept(k: TaskManager, new s: State, new i: nat, new m: Mutex)
    requires old(k.Represents(s)) && unchanged(k) && i < |k.mutexes|
    requires forall j :: 0 <= j < |k.sems| ==> unchanged(k.sems[j])
    requires forall j :: 0 <= j < |k.mutexes| && k.mutexes[j] != k.mutexes[i] ==> unchanged(k.mutexes[j])
    requires k.MutexFields(k.mutexes[i], m) && i < |s.mutexes|
    ensures k.Owned() && k.SyncsOk(s.(mutexes := s.mutexes[i := m]))
  {
    hide Placed, TaskManager.LinksOk, TaskManager.TasksOk, TaskManager.ListsOwned;
  }

  /** Set owner and count of a mutex; `m` is what they mean. */
  method StoreMutex(k: TaskManager, mutex: KernelMutex, owner: Task?, lockedCount: int,
                    ghost m: Mutex, ghost i: nat, ghost s: State)
    requires k.Represents(s) && i < |k.mutexes| && k.mutexes[i] == mutex
    requires i < |s.mutexes| && m.waiters == s.mutexes[i].waiters && m.lockedCount == lockedCount && OwnerIs(k, owner, m.owner)
    modifies k.repr - {k}
    ensures k.Represents(s.(mutexes := s.mutexes[i := m]))
  {
    hide *;
    k.GetMutex(s, i);
    mutex.owner := owner;
    mutex.lockedCount := lockedCount;
    MutexStored(k, mutex, m);
    MutexWritten(k, s, i, m);
  }

  lemma MutexStored(k: TaskManager, mutex: KernelMutex, m: Mutex)
    requires m.lockedCount == mutex.lockedCount && OwnerIs(k, mutex.owner, m.owner)
    ensures k.MutexFields(mutex, m)
  {
  }

  lemma CurOwner(k: TaskManager, s: State, i: nat)
    requires k.Represents(s) && i < |k.mutexes| && k.currTask != null
    ensures i < |s.mutexes| && k.mutexes[i].lockedCount == s.mutexes[i].lockedCount
    ensures k.mutexes[i].owner == k.currTask <==> s.mutexes[i].owner == Some(s.cur)
    ensures OwnerIs(k, k.currTask, Some(s.cur)) && OwnerIs(k, null, None)
  {
    k.GetMutex(s, i);
    k.GetCurr(s);
    if s.mutexes[i].owner.Some? {
      k.GetTcb(s, s.mutexes[i].owner.value);
    }
  }

  method MutexLock(k: TaskManager, mutex: KernelMutex, ghost i: nat, ghost s: State)
    requires k.Represents(s) && Inv(s) && i < |k.mutexes| && k.mutexes[i] == mutex && Enabled(s, Lock(i))
    requires k.currTask != null
    modifies k.repr - {k}, k`currTask
    ensures k.currTask != null
    ensures Known(s) && Inv(Step(s, Lock(i))) && k.Represents(Step(s, Lock(i)))
  {
    hide *;
    StepIs(s, Lock(i));
    k.GetMutex(s, i);
    CurOwner(k, s, i);
    LockIs(s, i);
    ghost var s' := Begin(s, Lock(i)).s;
    ghost var m' := s'.mutexes[i];
    var curr := k.currTask;
    if mutex.lockedCount == 0 {
      StoreMutex(k, mutex, curr, mutex.lockedCount + 1, m', i, s);
    } else if mutex.owner == curr {
      StoreMutex(k, mutex, mutex.owner, mutex.lockedCount + 1, m', i, s);
    } else {
      k.BlockOn(mutex.waitList, MutexQ(i), s, s');
      var _ := k.TaskDispatch(false, s');
    }
  }

  /** The last unlock: the mutex is free, or its first waiter gets it. */
  method GiveUp(k: TaskManager, mutex: KernelMutex, ghost i: nat, ghost s: State, ghost s': State)
    requires k.Represents(s) && i < |k.mutexes| && k.mutexes[i] == mutex && mutex.lockedCount == 0
    requires i < |s.mutexes| && var w, f := s.mutexes[i].waiters, WithOwner(s, i, None, 0);
             if w == [] then SameKernel(f, s')
             else && w[0] in s.tasks && ListAt(f, MutexQ(i)) == w && Known(s')
                  && SameKernel(WithOwner(Released(f, MutexQ(i)), i, Some(w[0]), 1), s')
    requires k.currTask != null
    modifies k.repr - {k}, k`currTask
    ensures k.currTask != null
    ensures s.mutexes[i].waiters == [] ==> k.Represents(s')
    ensures s.mutexes[i].waiters != [] ==> Known(s') && k.Represents(Dispatch(s', false))
  {
    hide *;
    ghost var f := WithOwner(s, i, None, 0);
    k.GetMutex(s, i);
    FreeIs(k, s, i);
    StoreMutex(k, mutex, null, mutex.lockedCount, f.mutexes[i], i, s);
    k.GetMutex(f, i);
    if mutex.waitList.count != 0 {
      HandMutex(k, mutex, i, f, s');
      var _ := k.TaskDispatch(false, s');
    } else {
      k.SameRepresented(f, s');
    }
  }

  lemma FreeIs(k: TaskManager, s: State, i: nat)
    requires i < |s.mutexes|
    ensures OwnerIs(k, null, None)
    ensures var f := WithOwner(s, i, None, 0);
            && f == s.(mutexes := s.mutexes[i := f.mutexes[i]]) && f.mutexes[i].lockedCount == 0
            && f.mutexes[i].waiters == s.mutexes[i].waiters && f.mutexes[i].owner == None
  {
  }

  /** The first waiter of a free mutex becomes ready and its owner. */
  method HandMutex(k: TaskManager, mutex: KernelMutex, ghost i: nat, ghost s: State, ghost s': State)
    requires k.Represents(s) && i < |k.mutexes| && k.mutexes[i] == mutex && i < |s.mutexes|
    requires ListAt(s, MutexQ(i)) != [] && ListAt(s, MutexQ(i))[0] in s.tasks
    requires SameKernel(WithOwner(Released(s, MutexQ(i)), i, Some(ListAt(s, MutexQ(i))[0]), 1), s')
    modifies k.repr - {k}
    ensures k.Represents(s')
  {
    k.GetMutex(s, i);
    ghost var t := ListAt(s, MutexQ(i))[0];
    ghost var r := Released(s, MutexQ(i));
    ghost var h := WithOwner(r, i, Some(t), 1);
    SameKernelRefl(r);
    HandedIs(r, i, t);
    hide *;
    var task := k.ReleaseFirst(mutex.waitList, MutexQ(i), s, r);
    NowOwner(k, task, t);
    StoreMutex(k, mutex, task, 1, h.mutexes[i], i, r);
    k.SameRepresented(h, s');
  }

  lemma NowOwner(k: TaskManager, task: Task, t: TaskId)
    requires t in k.tasks && task == k.tasks[t]
    ensures OwnerIs(k, task, Some(t))
  {
  }

  method MutexUnlock(k: TaskManager, mutex: KernelMutex, ghost i: nat, ghost s: State)
    requires k.Represents(s) && Inv(s) && i < |k.mutexes| && k.mutexes[i] == mutex && Enabled(s, Unlock(i))
    requires k.currTask != null
    modifies k.repr - {k}, k`currTask
    ensures k.currTask != null
    ensures Known(s) && Inv(Step(s, Unlock(i))) && k.Represents(Step(s, Unlock(i)))
  {
    hide *;
    StepIs(s, Unlock(i));
    k.GetMutex(s, i);
    CurOwner(k, s, i);
    UnlockIs(s, i);
    ghost var m := s.mutexes[i];
    ghost var s1 := WithOwner(s, i, m.owner, m.lockedCount - 1);
    ghost var s' := Begin(s, Unlock(i)).s;
    LoweredIs(s, i);
    var curr := k.currTask;
    if mutex.owner == curr {
      StoreMutex(k, mutex, mutex.owner, mutex.lockedCount - 1, s1.mutexes[i], i, s);
      CurOwner(k, s1, i);
      if mutex.lockedCount == 0 {
        GiveUp(k, mutex, i, s1, s');
      } else {
        k.SameRepresented(s1, s');
      }
    } else {
      k.SameRepresented(s, s');
    }
  }

  twostate lemma MutexAddedOwned(k: TaskManager, new s: State, new s': State, new mutex: KernelMutex)
    requires old(k.Represents(s)) && unchanged(k`currTask, k`tasks, k`sems)
    requires k.mutexes == old(k.mutexes) + [mutex] && k.lists == old(k.lists)[MutexQ(|old(k.mutexes)|) := mutex.waitList]
    requires k.repr == old(k.repr) + {mutex, mutex.waitList} && mutex !in old(k.repr) && mutex.waitList !in old(k.repr)
    requires mutex.owner == null && mutex.lockedCount == 0
    requires forall o: object :: o in old(k.repr) && o != k ==> unchanged(o)
    requires s' == s.(mutexes := s.mutexes + [Mutex(None, 0, [], [], [], map[])])
    ensures k.Owned() && k.TasksOk(s') && k.SyncsOk(s')
    ensures |s.mutexes| == |old(k.mutexes)| && MutexQ(|old(k.mutexes)|) !in old(k.lists)
  {
    hide TaskManager.Represents, TaskManager.TasksOk, TaskManager.SyncsOk, TaskManager.ListsOwned, TaskManager.Owned;
    k.OldObjects(s);
    MutexListsOwned(k, s, mutex);
    k.ObjectsOwned(s);
    k.TasksSame(s, s');
    MutexAddedSyncs(k, s, s', mutex);
  }

  twostate lemma MutexListsOwned(k: TaskManager, new s: State, new mutex: KernelMutex)
    requires old(k.Represents(s)) && unchanged(k`sems)
    requires k.mutexes == old(k.mutexes) + [mutex] && k.lists == old(k.lists)[MutexQ(|old(k.mutexes)|) := mutex.waitList]
    requires old(k.repr) <= k.repr && mutex.waitList in k.repr && mutex.waitList !in old(k.repr)
    ensures k.ListsOwned()
  {
    hide Placed, TaskManager.LinksOk, TaskManager.TasksOk, TaskManager.SyncsOk;
  }

  twostate lemma MutexAddedSyncs(k: TaskManager, new s: State, new s': State, new mutex: KernelMutex)
    requires old(k.Represents(s)) && k.Owned() && unchanged(k`tasks, k`sems) && k.mutexes == old(k.mutexes) + [mutex]
    requires mutex.owner == null && mutex.lockedCount == 0
    requires forall i :: 0 <= i < |old(k.sems)| ==> unchanged(old(k.sems)[i])
    requires forall i :: 0 <= i < |old(k.mutexes)| ==> unchanged(old(k.mutexes)[i])
    requires s' == s.(mutexes := s.mutexes + [Mutex(None, 0, [], [], [], map[])])
    ensures k.SyncsOk(s')
  {
    hide Placed, TaskManager.LinksOk, TaskManager.TasksOk, TaskManager.ListsOwned;
  }

  twostate lemma MutexAdded(k: TaskManager, new s: State, new s': State, new mutex: KernelMutex)
    requires old(k.Represents(s)) && unchanged(k`currTask, k`tasks, k`sems)
    requires k.mutexes == old(k.mutexes) + [mutex] && k.lists == old(k.lists)[MutexQ(|old(k.mutexes)|) := mutex.waitList]
    requires k.repr == old(k.repr) + {mutex, mutex.waitList} && mutex !in old(k.repr) && mutex.waitList !in old(k.repr)
    requires mutex.owner == null && mutex.lockedCount == 0 && mutex.waitList.Valid() && mutex.waitList.nodes == []
    requires forall o: object :: o in old(k.repr) && o != k ==> unchanged(o)
    requires s' == s.(mutexes := s.mutexes + [Mutex(None, 0, [], [], [], map[])])
    ensures k.Represents(s')
  {
    hide *;
    k.GetPlaced(s);
    MutexAddedOwned(k, s, s', mutex);
    AddedLists(s, s');
    k.Grown(s, s');
  }

  method MutexInit(k: TaskManager, ghost s: State) returns (mutex: KernelMutex)
    requires k.Represents(s) && Inv(s) && Enabled(s, Op.MutexInit)
    modifies k
    ensures fresh(k.repr - old(k.repr)) && k.mutexes == old(k.mutexes) + [mutex] && k.currTask == old(k.currTask)
    ensures mutex.owner == null && mutex.lockedCount == 0 && mutex.waitList.nodes == []
    ensures Known(s) && Inv(Step(s, Op.MutexInit)) && k.Represents(Step(s, Op.MutexInit))
  {
    hide *;
    ghost var s' := s.(mutexes := s.mutexes + [Mutex(None, 0, [], [], [], map[])]);
    StepIs(s, Op.MutexInit);
    InitIs(s, 0);
    mutex := new KernelMutex();
    k.lists := k.lists[MutexQ(|k.mutexes|) := mutex.waitList];
    k.mutexes := k.mutexes + [mutex];
    k.repr := k.repr + {mutex, mutex.waitList};
    MutexAdded(k, s, s', mutex);
  }
}
