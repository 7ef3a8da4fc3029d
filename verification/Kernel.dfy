/**
 * The kernel's objects: tasks with embedded list links, linked lists, semaphores and mutexes. Each
 * operation changes them in place and is proved to carry out a step of SchedModel: if the objects
 * represent a state `s` before, they represent the state after that step afterwards.
 */
module Kernel {
  import opened KernelSteps
  import opened Seqs
  import opened Lists
  import opened SchedModel
  import opened SchedInv
  import opened SchedRuns
  import opened SchedSteps
  import opened SchedTurns
  import opened SchedWalk

  class Task {
    const id: TaskId
    const runNode: ListNode
    const waitNode: ListNode
    var state: TaskState
    var sleepTicks: int
    var timeTicks: int
    var sliceTicks: int
    /** The saved context resumes in the timer interrupt, before the walk over the sleepers. */
    var walkPending: bool

    constructor (id: TaskId)
      ensures New(id) && fresh(runNode) && fresh(waitNode)
    {
      this.id := id;
      runNode := new ListNode(id);
      waitNode := new ListNode(id);
      state := Created;
      sleepTicks := 0;
      timeTicks := TASK_TIME_SLICE_DEFAULT;
      sliceTicks := TASK_TIME_SLICE_DEFAULT;
      walkPending := false;
    }

    function Block(): Tcb
      reads this
    {
      Tcb(state, sleepTicks, timeTicks, sliceTicks)
    }

    /** A task as it is created: on no list. */
    ghost predicate New(id: TaskId)
      reads this, runNode, waitNode
    {
      && this.id == id && runNode.owner == id && waitNode.owner == id
      && runNode != waitNode && runNode.home == waitNode.home == null
      && Block() == NEW_TCB && !walkPending
    }
  }

  class KernelSem {
    var count: int
    const waitList: List

    constructor (init: int)
      ensures count == init && fresh(waitList) && waitList.Valid() && waitList.nodes == []
    {
      count := init;
      waitList := new List();
    }
  }

  class KernelMutex {
    var owner: Task?
    var lockedCount: int
    const waitList: List

    constructor ()
      ensures owner == null && lockedCount == 0 && fresh(waitList) && waitList.Valid() && waitList.nodes == []
    {
      owner := null;
      lockedCount := 0;
      waitList := new List();
    }
  }

  class TaskManager {
    var currTask: Task?
    const readyList: List
    const sleepList: List
    /** Every task by its identity: what recovering a task from a link yields. */
    var tasks: map<TaskId, Task>
    var sems: seq<KernelSem>
    var mutexes: seq<KernelMutex>
    ghost var lists: map<ListRef, List>
    ghost var repr: set<object>

    /** Empty lists and the idle task, which is never put on one. */
    constructor ()
      ensures Represents(BOOT) && currTask == null && fresh(repr)
    {
      hide *;
      var idle := new Task(IDLE);
      readyList := new List();
      sleepList := new List();
      tasks := map[IDLE := idle];
      sems := [];
      mutexes := [];
      currTask := null;
      lists := map[ReadyQ := readyList, SleepQ := sleepList];
      new;
      repr := {this, readyList, sleepList, idle, idle.runNode, idle.waitNode};
      BootRepresented(idle);
    }

    lemma BootRepresented(idle: Task)
      requires tasks == map[IDLE := idle] && idle.New(IDLE)
      requires sems == [] && mutexes == [] && currTask == null
      requires lists == map[ReadyQ := readyList, SleepQ := sleepList] && readyList != sleepList
      requires readyList.Valid() && readyList.nodes == [] && sleepList.Valid() && sleepList.nodes == []
      requires repr == {this, readyList, sleepList, idle, idle.runNode, idle.waitNode}
      ensures Represents(BOOT)
    {
      assert forall r :: ListAt(BOOT, r) == [];
      assert Placed(BOOT);
      hide Placed;
      assert ListsOwned();
      assert Owned();
      assert LinksOk(BOOT);
    }

    // ----- the objects

    /** The objects of the kernel are distinct, and all in `repr`. */
    ghost predicate Owned()
      reads this`tasks, this`sems, this`mutexes, this`lists, this`repr
    {
      && this in repr
      && (forall t :: t in tasks ==>
            && tasks[t] in repr && tasks[t].runNode in repr && tasks[t].waitNode in repr
            && tasks[t].id == t && tasks[t].runNode.owner == t && tasks[t].waitNode.owner == t
            && tasks[t].runNode != tasks[t].waitNode)
      && (forall i :: 0 <= i < |sems| ==> sems[i] in repr)
      && (forall i :: 0 <= i < |mutexes| ==> mutexes[i] in repr)
      && (forall i, j :: 0 <= i < j < |sems| ==> sems[i] != sems[j])
      && (forall i, j :: 0 <= i < j < |mutexes| ==> mutexes[i] != mutexes[j])
      && ListsOwned()
    }

    ghost predicate ListsOwned()
      reads this`sems, this`mutexes, this`lists, this`repr
    {
      && (forall r :: r in lists ==> lists[r] in repr)
      && (forall r1, r2 :: r1 in lists && r2 in lists && lists[r1] == lists[r2] ==> r1 == r2)
      && (forall r :: r in lists <==> (r.SemQ? ==> r.i < |sems|) && (r.MutexQ? ==> r.i < |mutexes|))
      && lists[ReadyQ] == readyList && lists[SleepQ] == sleepList
      && (forall i {:trigger lists[SemQ(i)]} :: 0 <= i < |sems| ==> lists[SemQ(i)] == sems[i].waitList)
      && (forall i {:trigger lists[MutexQ(i)]} :: 0 <= i < |mutexes| ==> lists[MutexQ(i)] == mutexes[i].waitList)
    }

    ghost function NodeFor(r: ListRef, t: TaskId): ListNode
      requires t in tasks
      reads this`tasks
    {
      if r.ReadyQ? || r.SleepQ? then tasks[t].runNode else tasks[t].waitNode
    }

    // ----- the state they represent

    /** `nodes` are the links of the tasks `l`, in order. */
    ghost predicate Links(r: ListRef, nodes: seq<ListNode>, l: seq<TaskId>)
      reads this`tasks
    {
      && |nodes| == |l|
      && (forall k :: 0 <= k < |l| ==> l[k] in tasks && nodes[k] == NodeFor(r, l[k]))
    }

    /** The list object `r` is a well-formed list of the links of the tasks that `s` has on it. */
    ghost predicate ListOk(s: State, r: ListRef)
      requires r in lists && lists[r] in repr
      reads this, repr
    {
      && Links(r, lists[r].nodes, ListAt(s, r))
      && (forall n :: n in lists[r].nodes ==> n in repr)
      && lists[r].Valid()
    }

    /** A link is on a list only if `s` has its task there. */
    ghost predicate Homed(s: State, n: ListNode)
      reads this`lists, this`tasks, n
    {
      n.home == null ||
      exists r :: r in lists && lists[r] == n.home && n.owner in ListAt(s, r) && n.owner in tasks && n == NodeFor(r, n.owner)
    }

    ghost predicate LinksOk(s: State)
      requires Owned()
      reads this, repr
    {
      && (forall r :: r in lists ==> ListOk(s, r))
      && (forall t :: t in tasks ==> Homed(s, tasks[t].runNode) && Homed(s, tasks[t].waitNode))
    }

    ghost predicate TasksOk(s: State)
      requires Owned()
      reads this, repr
    {
      && tasks.Keys == s.tasks.Keys
      && s.cur in tasks && (if currTask == null then s.cur == IDLE else currTask == tasks[s.cur])
      && (forall t :: t in s.pending ==> t in tasks)
      && (forall t :: t in tasks ==> tasks[t].Block() == s.tasks[t] && (tasks[t].walkPending <==> t in s.pending))
    }

    ghost predicate MutexFields(x: KernelMutex, mx: Mutex)
      reads x, this`tasks
    {
      && x.lockedCount == mx.lockedCount
      && match mx.owner
         case None => x.owner == null
         case Some(t) => t in tasks && x.owner == tasks[t]
    }

    ghost predicate SyncsOk(s: State)
      requires Owned()
      reads this, repr
    {
      && |sems| == |s.sems| && |mutexes| == |s.mutexes|
      && (forall i :: 0 <= i < |sems| ==> sems[i].count == s.sems[i].count)
      && (forall i :: 0 <= i < |mutexes| ==> MutexFields(mutexes[i], s.mutexes[i]))
    }

    ghost predicate Represents(s: State)
      reads this, repr
    {
      Owned() && TasksOk(s) && SyncsOk(s) && LinksOk(s) && Placed(s)
    }

    // ----- changing one list

    /** Outside of a list object and its links nothing has changed: tasks, semaphores and mutexes are as before. */
    twostate lemma ObjectsKept(new s: State, l: List, new node: ListNode, new near: ListNode?, new far: ListNode?)
      requires old(Represents(s)) && unchanged(this)
      requires forall o: object :: o in old(repr) && o != l && o != node && o != near && o != far ==> unchanged(o)
      ensures forall x :: x in tasks ==> unchanged(tasks[x])
      ensures forall i :: 0 <= i < |sems| ==> unchanged(sems[i])
      ensures forall i :: 0 <= i < |mutexes| ==> unchanged(mutexes[i])
    {
      hide Placed, LinksOk, TasksOk, SyncsOk, ListsOwned;
    }

    twostate lemma FieldsKept(s: State, new r: ListRef, new l: seq<TaskId>)
      requires old(Represents(s)) && unchanged(this)
      requires r.SemQ? ==> r.i < |s.sems|
      requires r.MutexQ? ==> r.i < |s.mutexes|
      requires forall x :: x in tasks ==> unchanged(tasks[x])
      requires forall i :: 0 <= i < |sems| ==> unchanged(sems[i])
      requires forall i :: 0 <= i < |mutexes| ==> unchanged(mutexes[i])
      ensures Owned() && TasksOk(Put(s, r, l)) && SyncsOk(Put(s, r, l))
    {
      hide Placed, LinksOk, ListsOwned;
    }

    /** The other lists, and the links of other tasks, still agree with the state. */
    twostate lemma LinksKept(s: State, new r: ListRef, new l: seq<TaskId>, new t: TaskId)
      requires old(Represents(s)) && unchanged(this) && r in lists && t in tasks
      requires r.SemQ? ==> r.i < |s.sems|
      requires r.MutexQ? ==> r.i < |s.mutexes|
      requires forall x :: x != t ==> (x in l <==> x in ListAt(s, r))
      requires forall r2 :: r2 in lists && r2 != r ==> lists[r2].Valid() && lists[r2].nodes == old(lists[r2].nodes)
      requires lists[r] in repr && ListOk(Put(s, r, l), r)
      requires forall x :: x in tasks && x != t ==> tasks[x].runNode.home == old(tasks[x].runNode.home)
      requires forall x :: x in tasks && x != t ==> tasks[x].waitNode.home == old(tasks[x].waitNode.home)
      requires Homed(Put(s, r, l), tasks[t].runNode) && Homed(Put(s, r, l), tasks[t].waitNode)
      ensures Owned() && LinksOk(Put(s, r, l))
    {
      hide Placed, List.Valid, TasksOk, SyncsOk;
      PutList(s, r, l);
      forall r2 | r2 in lists ensures ListOk(Put(s, r, l), r2) {
        assert old(ListOk(s, r2));
      }
      forall x | x in tasks ensures Homed(Put(s, r, l), tasks[x].runNode) && Homed(Put(s, r, l), tasks[x].waitNode) {
        if x != t {
          HomedKept(s, r, l, t, tasks[x].runNode);
          HomedKept(s, r, l, t, tasks[x].waitNode);
        }
      }
    }

    twostate lemma HomedKept(new s: State, new r: ListRef, new l: seq<TaskId>, new t: TaskId, n: ListNode)
      requires r.SemQ? ==> r.i < |s.sems|
      requires r.MutexQ? ==> r.i < |s.mutexes|
      requires old(Homed(s, n)) && n.home == old(n.home) && n.owner != t && lists == old(lists) && tasks == old(tasks)
      requires forall x :: x != t ==> (x in l <==> x in ListAt(s, r))
      ensures Homed(Put(s, r, l), n)
    {
      PutList(s, r, l);
      if n.home != null {
        var r2 :| r2 in lists && lists[r2] == n.home && n.owner in ListAt(s, r2) && n == NodeFor(r2, n.owner);
        assert n.owner in ListAt(Put(s, r, l), r2);
      }
    }

    lemma GetListOk(s: State, r: ListRef)
      requires Represents(s) && r in lists
      ensures lists[r].Valid() && Links(r, lists[r].nodes, ListAt(s, r)) && lists[r] in repr
      ensures lists[r].first != null ==> lists[r].first in repr
      ensures lists[r].last != null ==> lists[r].last in repr
      ensures r.SemQ? ==> r.i < |s.sems|
      ensures r.MutexQ? ==> r.i < |s.mutexes|
    {
      hide Placed;
      assert ListOk(s, r);
    }

    lemma InList(l: List, k: nat)
      requires l.Valid() && k < |l.nodes|
      ensures l.nodes[k].home == l
    {
    }

    lemma LinksAppend(r: ListRef, nodes: seq<ListNode>, l: seq<TaskId>, t: TaskId)
      requires Links(r, nodes, l) && t in tasks
      ensures Links(r, nodes + [NodeFor(r, t)], l + [t])
    {
    }

    /** A task on no list has both links free. */
    lemma LinksFree(s: State, t: TaskId)
      requires Represents(s) && t in tasks && !On(s, t)
      ensures tasks[t].runNode.home == null && tasks[t].waitNode.home == null
      ensures forall r :: NodeFor(r, t) == tasks[t].runNode || NodeFor(r, t) == tasks[t].waitNode
    {
    }

    /** After a list operation on `r` that leaves the links of other tasks alone. */
    twostate lemma ListWritten(new s: State, new r: ListRef, new l: seq<TaskId>, new t: TaskId,
                               node: ListNode, new near: ListNode?, new far: ListNode?)
      requires old(Represents(s)) && unchanged(this) && r in lists && t in tasks
      requires node == NodeFor(r, t)
      requires r.SemQ? ==> r.i < |s.sems|
      requires r.MutexQ? ==> r.i < |s.mutexes|
      requires forall o: object :: o in old(repr) && o != lists[r] && o != node && o != near && o != far ==> unchanged(o)
      requires forall l2: List {:trigger l2.Valid()} :: old(allocated(l2)) && l2 != lists[r] && old(l2.Valid()) ==>
                 l2.Valid() && l2.nodes == old(l2.nodes)
      requires forall n: ListNode {:trigger n.home} :: old(allocated(n)) && n != node ==> n.home == old(n.home)
      requires forall x :: x != t ==> (x in l <==> x in ListAt(s, r))
      requires Placed(Put(s, r, l))
      requires lists[r] in repr && ListOk(Put(s, r, l), r)
      requires Homed(Put(s, r, l), tasks[t].runNode) && Homed(Put(s, r, l), tasks[t].waitNode)
      ensures Represents(Put(s, r, l))
    {
      ObjectsKept(s, lists[r], node, near, far);
      FieldsKept(s, r, l);
      OthersKept(s, r, t, node);
      hide *;
      LinksKept(s, r, l, t);
      Represented(Put(s, r, l));
    }

    lemma Represented(s: State)
      requires Owned() && TasksOk(s) && SyncsOk(s) && LinksOk(s) && Placed(s)
      ensures Represents(s)
    {
    }

    /** The other lists and the links of other tasks. */
    twostate lemma OthersKept(new s: State, new r: ListRef, new t: TaskId, node: ListNode)
      requires old(Represents(s)) && unchanged(this) && r in lists && t in tasks
      requires node == NodeFor(r, t)
      requires forall l2: List {:trigger l2.Valid()} :: old(allocated(l2)) && l2 != lists[r] && old(l2.Valid()) ==>
                 l2.Valid() && l2.nodes == old(l2.nodes)
      requires forall n: ListNode {:trigger n.home} :: old(allocated(n)) && n != node ==> n.home == old(n.home)
      ensures forall r2 :: r2 in lists && r2 != r ==> lists[r2].Valid() && lists[r2].nodes == old(lists[r2].nodes)
      ensures forall x :: x in tasks && x != t ==> tasks[x].runNode.home == old(tasks[x].runNode.home)
      ensures forall x :: x in tasks && x != t ==> tasks[x].waitNode.home == old(tasks[x].waitNode.home)
    {
      hide Placed, List.Valid, TasksOk, SyncsOk;
      forall r2 | r2 in lists && r2 != r ensures lists[r2].Valid() && lists[r2].nodes == old(lists[r2].nodes) {
        assert old(ListOk(s, r2));
      }
    }

    twostate lemma Appended(new s: State, new r: ListRef, new t: TaskId, node: ListNode, new near: ListNode?)
      requires old(Represents(s)) && unchanged(this) && old(r in lists && t in tasks && node == NodeFor(r, t))
      requires r.SemQ? ==> r.i < |s.sems|
      requires r.MutexQ? ==> r.i < |s.mutexes|
      requires t != IDLE && !On(s, t)
      requires forall o: object :: o in old(repr) && o != lists[r] && o != node && o != near ==> unchanged(o)
      requires forall l2: List {:trigger l2.Valid()} :: old(allocated(l2)) && l2 != lists[r] && old(l2.Valid()) ==>
                 l2.Valid() && l2.nodes == old(l2.nodes)
      requires forall n: ListNode {:trigger n.home} :: old(allocated(n)) && n != node ==> n.home == old(n.home)
      requires lists[r].Valid() && lists[r].nodes == old(lists[r].nodes) + [node]
      ensures Represents(Put(s, r, ListAt(s, r) + [t]))
    {
      hide *;
      var l := ListAt(s, r) + [t];
      WereFree(s, t);
      AppendedListOk(s, r, t, node);
      InList(lists[r], |lists[r].nodes| - 1);
      AppendedHomed(s, r, t, node, l);
      ListWritten(s, r, l, t, node, near, null);
    }

    /** The link is on the list now, and the task's other link is still free. */
    twostate lemma AppendedHomed(new s: State, new r: ListRef, new t: TaskId, node: ListNode, new l: seq<TaskId>)
      requires unchanged(this) && r in lists && t in tasks && node == NodeFor(r, t) && node.owner == t
      requires r.SemQ? ==> r.i < |s.sems|
      requires r.MutexQ? ==> r.i < |s.mutexes|
      requires t in l && ListAt(Put(s, r, l), r) == l
      requires node.home == lists[r]
      requires old(tasks[t].runNode.home) == null && old(tasks[t].waitNode.home) == null
      requires tasks[t].runNode.owner == t && tasks[t].waitNode.owner == t
      requires forall n: ListNode {:trigger n.home} :: old(allocated(n)) && n != node ==> n.home == old(n.home)
      ensures Homed(Put(s, r, l), tasks[t].runNode) && Homed(Put(s, r, l), tasks[t].waitNode)
    {
      hide Put, ListAt;
    }

    twostate lemma AppendedListOk(new s: State, new r: ListRef, new t: TaskId, node: ListNode)
      requires old(Represents(s)) && unchanged(this) && old(r in lists && t in tasks && node == NodeFor(r, t))
      requires r.SemQ? ==> r.i < |s.sems|
      requires r.MutexQ? ==> r.i < |s.mutexes|
      requires t != IDLE && !On(s, t) && node in repr
      requires lists[r].Valid() && lists[r].nodes == old(lists[r].nodes) + [node]
      ensures var l := ListAt(s, r) + [t];
              lists[r] in repr && ListOk(Put(s, r, l), r) && Placed(Put(s, r, l)) && ListAt(Put(s, r, l), r) == l
    {
      hide *;
      WasLinked(s, r, 0);
      GetPlaced(s);
      PutPush(s, r, t);
      PutIs(s, r, ListAt(s, r) + [t]);
      AddListOk(s, r, t, old(lists[r].nodes));
    }

    lemma AddListOk(s: State, r: ListRef, t: TaskId, nodes: seq<ListNode>)
      requires r in lists && lists[r] in repr && Links(r, nodes, ListAt(s, r)) && t in tasks
      requires (forall n :: n in nodes ==> n in repr) && NodeFor(r, t) in repr
      requires r.SemQ? ==> r.i < |s.sems|
      requires r.MutexQ? ==> r.i < |s.mutexes|
      requires lists[r].Valid() && lists[r].nodes == nodes + [NodeFor(r, t)]
      ensures ListOk(Put(s, r, ListAt(s, r) + [t]), r)
    {
      hide Put, Links, ListAt, List.Valid, NodeFor;
      PutIs(s, r, ListAt(s, r) + [t]);
      LinksAppend(r, nodes, ListAt(s, r), t);
    }

    twostate lemma WereFree(s: State, new t: TaskId)
      requires old(Represents(s)) && t in old(tasks) && !On(s, t)
      ensures old(tasks[t].runNode.home) == null && old(tasks[t].waitNode.home) == null
      ensures old(tasks[t].runNode != tasks[t].waitNode)
      ensures forall r :: old(NodeFor(r, t)).owner == t && old(NodeFor(r, t)) in old(repr)
      ensures old(tasks[t]).runNode.owner == t && old(tasks[t]).waitNode.owner == t
    {
      assert old(LinksOk(s));
    }

    /** Append the link of a task that is on no list. */
    method LinkLast(l: List, node: ListNode, ghost r: ListRef, ghost t: TaskId, ghost s: State)
      requires Represents(s) && r in lists && l == lists[r]
      requires t in tasks && t != IDLE && !On(s, t) && node == NodeFor(r, t)
      modifies repr - {this}
      ensures r.SemQ? ==> r.i < |s.sems|
      ensures r.MutexQ? ==> r.i < |s.mutexes|
      ensures Represents(Put(s, r, ListAt(s, r) + [t]))
    {
      hide *;
      ghost var near := l.last;
      GetListOk(s, r);
      LinksFree(s, t);
      GetTcb(s, t);
      l.InsertLast(node);
      Appended(s, r, t, node, near);
    }

    method StoreState(task: Task, state: TaskState, ghost s: State)
      requires Represents(s) && task.id in tasks && tasks[task.id] == task
      modifies repr - {this}
      ensures task.id in s.tasks
      ensures Represents(s.(tasks := s.tasks[task.id := s.tasks[task.id].(state := state)]))
    {
      hide *;
      GetTcb(s, task.id);
      task.state := state;
      TcbWritten(s, task);
      TcbIs(s, task, s.tasks[task.id].(state := state));
    }

    /** What the fields of a task say, if its continuation is as in `s`. */
    lemma TcbIs(s: State, task: Task, tcb: Tcb)
      requires Tcb(task.state, task.sleepTicks, task.timeTicks, task.sliceTicks) == tcb
      requires task.walkPending <==> task.id in s.pending
      ensures TcbOf(s, task) == s.(tasks := s.tasks[task.id := tcb])
    {
      assert task.walkPending ==> s.pending + {task.id} == s.pending;
    }

    method TaskSetReady(task: Task, ghost s: State)
      requires Represents(s) && task.id in tasks && tasks[task.id] == task && !On(s, task.id)
      modifies repr - {this}
      ensures task.id in s.tasks && Represents(SetReady(s, task.id))
    {
      hide *;
      SetReadyIs(s, task.id);
      GetTcb(s, task.id);
      GetReadyList(s);
      if task.id == IDLE {
        return;
      }
      LinkLast(readyList, task.runNode, ReadyQ, task.id, s);
      StoreState(task, TaskState.Ready, Put(s, ReadyQ, ListAt(s, ReadyQ) + [task.id]));
    }

    lemma SetReadyIs(s: State, t: TaskId)
      requires Represents(s) && t in tasks
      ensures t in s.tasks && NodeFor(ReadyQ, t) == tasks[t].runNode
      ensures var s1 := Put(s, ReadyQ, ListAt(s, ReadyQ) + [t]);
              SetReady(s, t) == if t == IDLE then s else s1.(tasks := s1.tasks[t := s1.tasks[t].(state := TaskState.Ready)])
    {
    }

    lemma GetReadyList(s: State)
      requires Represents(s)
      ensures ReadyQ in lists && lists[ReadyQ] == readyList
      ensures SleepQ in lists && lists[SleepQ] == sleepList
    {
    }

    lemma GetTcb(s: State, t: TaskId)
      requires Represents(s) && t in tasks
      ensures t in s.tasks && (tasks[t].walkPending <==> t in s.pending)
      ensures Tcb(tasks[t].state, tasks[t].sleepTicks, tasks[t].timeTicks, tasks[t].sliceTicks) == s.tasks[t]
      ensures tasks[t].id == t && tasks[t] in repr && tasks[t].runNode in repr && tasks[t].waitNode in repr
    {
    }

    /** Writing the fields of one task disturbs nothing else. */
    twostate lemma TcbWritten(new s: State, task: Task)
      requires old(Represents(s)) && unchanged(this)
      requires task.id in tasks && tasks[task.id] == task
      requires forall o: object :: o in old(repr) && o != task ==> unchanged(o)
      ensures Represents(TcbOf(s, task))
    {
      hide *;
      OneWritten(s, task);
      GetPlaced(s);
      TcbFields(s, task);
      TcbLists(s, task);
      SyncsSame(s, TcbOf(s, task));
      LinksSame(s, TcbOf(s, task));
      Represented(TcbOf(s, task));
    }

    /** Writing one object that is not part of a list leaves the lists and all other objects alone. */
    twostate lemma OneWritten(new s: State, x: object)
      requires old(Represents(s)) && unchanged(this) && !(x is List) && !(x is ListNode)
      requires forall o: object :: o in old(repr) && o != x ==> unchanged(o)
      ensures forall t :: t in tasks && tasks[t] != x ==> unchanged(tasks[t])
      ensures forall i :: 0 <= i < |sems| && sems[i] != x ==> unchanged(sems[i])
      ensures forall i :: 0 <= i < |mutexes| && mutexes[i] != x ==> unchanged(mutexes[i])
      ensures forall r :: r in lists ==> lists[r].Valid() && lists[r].nodes == old(lists[r].nodes)
      ensures forall t :: t in tasks ==> tasks[t].runNode.home == old(tasks[t].runNode.home)
      ensures forall t :: t in tasks ==> tasks[t].waitNode.home == old(tasks[t].waitNode.home)
    {
      hide Placed, TasksOk, SyncsOk, List.Valid, Homed;
      forall r | r in lists ensures lists[r].Valid() && lists[r].nodes == old(lists[r].nodes) {
        assert old(ListOk(s, r));
      }
      hide LinksOk;
    }

    twostate lemma TcbFields(new s: State, task: Task)
      requires old(Represents(s)) && unchanged(this)
      requires task.id in tasks && tasks[task.id] == task
      requires forall x :: x in tasks && tasks[x] != task ==> unchanged(tasks[x])
      ensures Owned() && TasksOk(TcbOf(s, task))
    {
      hide Placed, LinksOk, SyncsOk, ListsOwned;
      var s' := TcbOf(s, task);
      forall x | x in tasks ensures tasks[x].Block() == s'.tasks[x] && (tasks[x].walkPending <==> x in s'.pending) {
        if x != task.id {
          assert tasks[x].id == x;
          assert old(tasks[x].Block()) == s.tasks[x];
          assert old(tasks[x].walkPending) <==> x in s.pending;
        }
      }
    }

    lemma TcbLists(s: State, task: Task)
      requires Placed(s) && task.id in s.tasks
      ensures Placed(TcbOf(s, task))
      ensures TcbOf(s, task).sems == s.sems && TcbOf(s, task).mutexes == s.mutexes
      ensures forall r :: ListAt(TcbOf(s, task), r) == ListAt(s, r)
    {
      PlacedSame(s, TcbOf(s, task));
    }

    twostate lemma GetPlaced(s: State)
      requires old(Represents(s))
      ensures Placed(s) && old(tasks).Keys == s.tasks.Keys
    {
    }

    /** Nothing about semaphores, mutexes, lists and links depends on the fields of the tasks. */
    twostate lemma SyncsSame(s: State, new s': State)
      requires old(Represents(s)) && unchanged(this`tasks, this`sems, this`mutexes, this`lists, this`repr)
      requires s'.sems == s.sems && s'.mutexes == s.mutexes
      requires forall i :: 0 <= i < |sems| ==> unchanged(sems[i])
      requires forall i :: 0 <= i < |mutexes| ==> unchanged(mutexes[i])
      ensures Owned() && SyncsOk(s')
    {
      hide Placed, LinksOk, TasksOk, ListsOwned;
    }

    twostate lemma LinksSame(s: State, new s': State)
      requires old(Represents(s)) && unchanged(this`tasks, this`sems, this`mutexes, this`lists, this`repr)
      requires forall r :: ListAt(s', r) == ListAt(s, r)
      requires forall r :: r in lists ==> lists[r].Valid() && lists[r].nodes == old(lists[r].nodes)
      requires forall x :: x in tasks ==> tasks[x].runNode.home == old(tasks[x].runNode.home)
      requires forall x :: x in tasks ==> tasks[x].waitNode.home == old(tasks[x].waitNode.home)
      ensures Owned() && LinksOk(s')
    {
      hide Placed, TasksOk, SyncsOk, List.Valid, ListAt;
      forall r | r in lists ensures ListOk(s', r) {
        assert old(ListOk(s, r));
        assert ListAt(s', r) == ListAt(s, r);
      }
      hide ListOk;
      forall x | x in tasks ensures Homed(s', tasks[x].runNode) && Homed(s', tasks[x].waitNode) {
        HomedSame(s, s', tasks[x].runNode);
        HomedSame(s, s', tasks[x].waitNode);
      }
    }

    twostate lemma HomedSame(new s: State, new s': State, n: ListNode)
      requires old(Homed(s, n)) && n.home == old(n.home) && lists == old(lists) && tasks == old(tasks)
      requires forall r :: ListAt(s', r) == ListAt(s, r)
      ensures Homed(s', n)
    {
      if n.home != null {
        var r2 :| r2 in lists && lists[r2] == n.home && n.owner in ListAt(s, r2) && n == NodeFor(r2, n.owner);
        assert n.owner in ListAt(s', r2);
      }
    }

    /** `s` with the fields of `task`. */
    ghost function TcbOf(s: State, task: Task): State
      reads task
    {
      s.(tasks := s.tasks[task.id := task.Block()],
         pending := if task.walkPending then s.pending + {task.id} else s.pending - {task.id})
    }

    // ----- taking a link off a list

    lemma LinksCut(r: ListRef, nodes: seq<ListNode>, l: seq<TaskId>, k: nat)
      requires Links(r, nodes, l) && k < |l|
      ensures Links(r, nodes[..k] + nodes[k + 1..], l[..k] + l[k + 1..])
    {
    }

    /** A task on the list `r` has no link but that one on any list. */
    twostate lemma OtherLinkFree(s: State, new r: ListRef, new t: TaskId)
      requires old(Represents(s)) && unchanged(this) && r in old(lists) && t in old(tasks) && t in ListAt(s, r)
      ensures old((if NodeFor(r, t) == tasks[t].runNode then tasks[t].waitNode else tasks[t].runNode).home) == null
      ensures old(tasks[t].runNode != tasks[t].waitNode)
      ensures old(NodeFor(r, t) in lists[r].nodes) && NodeFor(r, t).owner == t
    {
      assert old(LinksOk(s)) && old(ListOk(s, r));
      var k :| 0 <= k < |ListAt(s, r)| && ListAt(s, r)[k] == t;
      assert old(lists[r].nodes[k] == NodeFor(r, t));
    }

    twostate lemma Removed(new s: State, new r: ListRef, new t: TaskId, node: ListNode, new k: nat,
                           new near: ListNode?, new far: ListNode?)
      requires old(Represents(s)) && unchanged(this)
      requires old(r in lists && t in tasks && node == NodeFor(r, t)) && t in ListAt(s, r)
      requires r.SemQ? ==> r.i < |s.sems|
      requires r.MutexQ? ==> r.i < |s.mutexes|
      requires forall o: object :: o in old(repr) && o != lists[r] && o != node && o != near && o != far ==> unchanged(o)
      requires forall l2: List {:trigger l2.Valid()} :: old(allocated(l2)) && l2 != lists[r] && old(l2.Valid()) ==>
                 l2.Valid() && l2.nodes == old(l2.nodes)
      requires forall n: ListNode {:trigger n.home} :: old(allocated(n)) && n != node ==> n.home == old(n.home)
      requires lists[r].Valid() && node.home == null
      requires k < |old(lists[r].nodes)| && node == old(lists[r].nodes)[k]
      requires lists[r].nodes == old(lists[r].nodes)[..k] + old(lists[r].nodes)[k + 1..]
      ensures Represents(Put(s, r, Without(ListAt(s, r), t)))
    {
      var l := Without(ListAt(s, r), t);
      PutDropped(s, r, t);
      OtherLinkFree(s, r, t);
      RemovedListOk(s, r, t, node, k);
      hide Placed, On, List.Valid, TasksOk, SyncsOk, LinksOk, Put, ListAt, ListOk, Owned;
      ListWritten(s, r, l, t, node, near, far);
    }

    twostate lemma PutDropped(s: State, new r: ListRef, new t: TaskId)
      requires old(Represents(s)) && t in ListAt(s, r)
      requires r.SemQ? ==> r.i < |s.sems|
      requires r.MutexQ? ==> r.i < |s.mutexes|
      ensures Placed(Put(s, r, Without(ListAt(s, r), t)))
      ensures forall x :: x != t ==> (x in Without(ListAt(s, r), t) <==> x in ListAt(s, r))
    {
      PutDrop(s, r, t);
      WithoutMembersOf(s, r, t);
    }

    twostate lemma RemovedListOk(new s: State, new r: ListRef, new t: TaskId, node: ListNode, new k: nat)
      requires old(Represents(s)) && unchanged(this) && old(r in lists && t in tasks && node == NodeFor(r, t))
      requires r.SemQ? ==> r.i < |s.sems|
      requires r.MutexQ? ==> r.i < |s.mutexes|
      requires lists[r].Valid() && k < |old(lists[r].nodes)| && node == old(lists[r].nodes)[k]
      requires node.owner == t
      requires lists[r].nodes == old(lists[r].nodes)[..k] + old(lists[r].nodes)[k + 1..]
      ensures lists[r] in repr && ListOk(Put(s, r, Without(ListAt(s, r), t)), r)
    {
      hide *;
      WasLinked(s, r, k);
      PutDropped(s, r, t);
      CutListOk(s, r, t, k, old(lists[r].nodes));
    }

    /** A list object as it was: the links of the tasks on it, at each position that of the task there. */
    twostate lemma WasLinked(s: State, new r: ListRef, new k: nat)
      requires old(Represents(s)) && unchanged(this) && old(r in lists)
      ensures Links(r, old(lists[r].nodes), ListAt(s, r)) && Distinct(ListAt(s, r)) && lists[r] in repr
      ensures forall n :: n in old(lists[r].nodes) ==> n in repr
      ensures k < |old(lists[r].nodes)| ==> k < |ListAt(s, r)| && old(lists[r].nodes)[k].owner == ListAt(s, r)[k]
    {
      assert old(ListOk(s, r));
      hide SyncsOk, LinksOk, List.Valid;
      assert k < |old(lists[r].nodes)| ==> old(lists[r].nodes)[k] == NodeFor(r, ListAt(s, r)[k]);
    }

    lemma CutListOk(s: State, r: ListRef, t: TaskId, k: nat, nodes: seq<ListNode>)
      requires r in lists && lists[r] in repr && Links(r, nodes, ListAt(s, r)) && Distinct(ListAt(s, r))
      requires forall n :: n in nodes ==> n in repr
      requires r.SemQ? ==> r.i < |s.sems|
      requires r.MutexQ? ==> r.i < |s.mutexes|
      requires k < |nodes| && k < |ListAt(s, r)| && t == ListAt(s, r)[k]
      requires lists[r].Valid() && lists[r].nodes == nodes[..k] + nodes[k + 1..]
      ensures ListOk(Put(s, r, Without(ListAt(s, r), t)), r)
    {
      hide Distinct, Without, Put, Links, ListAt, List.Valid, Owned;
      WithoutAt(ListAt(s, r), k);
      PutIs(s, r, Without(ListAt(s, r), t));
      LinksCut(r, nodes, ListAt(s, r), k);
    }

    twostate lemma RemovedFirst(new s: State, new r: ListRef, new t: TaskId, node: ListNode, new far: ListNode?)
      requires old(Represents(s)) && unchanged(this)
      requires old(r in lists && t in tasks && node == NodeFor(r, t)) && t in ListAt(s, r)
      requires r.SemQ? ==> r.i < |s.sems|
      requires r.MutexQ? ==> r.i < |s.mutexes|
      requires forall o: object :: o in old(repr) && o != lists[r] && o != node && o != far ==> unchanged(o)
      requires forall l2: List {:trigger l2.Valid()} :: old(allocated(l2)) && l2 != lists[r] && old(l2.Valid()) ==>
                 l2.Valid() && l2.nodes == old(l2.nodes)
      requires forall n: ListNode {:trigger n.home} :: old(allocated(n)) && n != node ==> n.home == old(n.home)
      requires lists[r].Valid() && node.home == null
      requires old(lists[r].nodes) != [] && node == old(lists[r].nodes)[0] && lists[r].nodes == old(lists[r].nodes)[1..]
      ensures Represents(Put(s, r, Without(ListAt(s, r), t)))
    {
      hide *;
      assert lists[r].nodes == old(lists[r].nodes)[..0] + old(lists[r].nodes)[1..];
      Removed(s, r, t, node, 0, null, far);
    }

    lemma GetNode(s: State, r: ListRef, k: nat)
      requires Represents(s) && r in lists && k < |ListAt(s, r)|
      ensures var t := ListAt(s, r)[k];
              && t in tasks && lists[r].Valid() && |lists[r].nodes| == |ListAt(s, r)|
              && lists[r].nodes[k] == NodeFor(r, t) && NodeFor(r, t) in lists[r].nodes && NodeFor(r, t).owner == t
              && (k == 0 ==> lists[r].first == NodeFor(r, t))
              && NodeFor(r, t) in repr
              && (NodeFor(r, t).pre != null ==> NodeFor(r, t).pre in repr)
              && (NodeFor(r, t).next != null ==> NodeFor(r, t).next in repr)
              && NodeFor(r, t).next == if k + 1 < |ListAt(s, r)| then lists[r].nodes[k + 1] else null
    {
      hide Placed, TasksOk, SyncsOk, ListAt;
      assert ListOk(s, r);
      assert lists[r].nodes[k] == NodeFor(r, ListAt(s, r)[k]);
      assert NodeFor(r, ListAt(s, r)[k]).pre == if k == 0 then null else lists[r].nodes[k - 1];
      hide ListOk, LinksOk, Homed, ListsOwned;
    }

    lemma GetLink(s: State, r: ListRef, t: TaskId)
      requires Represents(s) && r in lists && t in ListAt(s, r)
      ensures t in tasks && lists[r].Valid() && NodeFor(r, t) in lists[r].nodes
      ensures var n := NodeFor(r, t);
              lists[r] in repr && n in repr && (n.pre != null ==> n.pre in repr) && (n.next != null ==> n.next in repr)
      ensures r.SemQ? ==> r.i < |s.sems|
      ensures r.MutexQ? ==> r.i < |s.mutexes|
    {
      var k :| 0 <= k < |ListAt(s, r)| && ListAt(s, r)[k] == t;
      GetListOk(s, r);
      GetNode(s, r, k);
    }

    /** Take a task off the list it is on. */
    method Unlink(l: List, node: ListNode, ghost r: ListRef, ghost t: TaskId, ghost s: State)
      requires Represents(s) && r in lists && l == lists[r]
      requires t in tasks && t in ListAt(s, r) && node == NodeFor(r, t)
      modifies repr - {this}
      ensures r.SemQ? ==> r.i < |s.sems|
      ensures r.MutexQ? ==> r.i < |s.mutexes|
      ensures Represents(Put(s, r, Without(ListAt(s, r), t)))
    {
      hide *;
      ghost var near, far := node.pre, node.next;
      GetLink(s, r, t);
      var _, k := l.Remove(node);
      Removed(s, r, t, node, k, near, far);
    }

    lemma GetHead(s: State, r: ListRef)
      requires Represents(s) && r in lists && ListAt(s, r) != []
      ensures var l, t := lists[r], ListAt(s, r)[0];
              && t in tasks && t in ListAt(s, r) && l.Valid() && l in repr
              && l.nodes != [] && l.first != null && l.nodes[0] == l.first && l.first == NodeFor(r, t) && l.first.owner == t
              && l.first in repr && (l.first.next != null ==> l.first.next in repr)
      ensures r.SemQ? ==> r.i < |s.sems|
      ensures r.MutexQ? ==> r.i < |s.mutexes|
    {
      GetListOk(s, r);
      GetNode(s, r, 0);
    }

    /** Take the first task off a list. */
    method UnlinkFirst(l: List, ghost r: ListRef, ghost s: State) returns (node: ListNode?)
      requires Represents(s) && r in lists && l == lists[r] && ListAt(s, r) != []
      modifies repr - {this}
      ensures r.SemQ? ==> r.i < |s.sems|
      ensures r.MutexQ? ==> r.i < |s.mutexes|
      ensures node != null && node.owner == ListAt(s, r)[0]
      ensures Represents(Put(s, r, Without(ListAt(s, r), ListAt(s, r)[0])))
    {
      hide *;
      ghost var t := ListAt(s, r)[0];
      GetHead(s, r);
      ghost var head, far := l.first, l.first.next;
      node := l.RemoveFirst();
      assert node == head;
      RemovedFirst(s, r, t, head, far);
    }

    // ----- task.c

    /** Take a ready task off the ready list. */
    method TaskSetBlock(task: Task, ghost s: State)
      requires Represents(s) && task.id in tasks && tasks[task.id] == task
      requires task.id == IDLE || task.id in s.ready
      modifies repr - {this}
      ensures Represents(SetBlock(s, task.id))
    {
      hide *;
      GetReadyList(s);
      SetBlockIs(s, task.id);
      if task.id == IDLE {
        return;
      }
      Unlink(readyList, task.runNode, ReadyQ, task.id, s);
    }

    lemma SetBlockIs(s: State, t: TaskId)
      requires Represents(s) && t in tasks
      ensures NodeFor(ReadyQ, t) == tasks[t].runNode && ListAt(s, ReadyQ) == s.ready
      ensures SetBlock(s, t) == if t == IDLE then s else Put(s, ReadyQ, Without(ListAt(s, ReadyQ), t))
    {
    }

    /** The head of the ready list, or the idle task. */
    method TaskNextRun(ghost s: State) returns (to: Task)
      requires Represents(s)
      ensures NextRun(s) in tasks && to == tasks[NextRun(s)] && to.id == NextRun(s)
    {
      GetReadyList(s);
      GetListOk(s, ReadyQ);
      GetTcb(s, IDLE);
      assert |readyList.nodes| == |s.ready|;
      if readyList.count == 0 {
        to := tasks[IDLE];
      } else {
        GetNode(s, ReadyQ, 0);
        to := tasks[readyList.first.owner];
      }
    }

    /** Everything but the two tasks of a switch, and the current task, is as before. */
    twostate lemma SwitchObjects(new s: State, from: Task, new to: Task)
      requires old(Represents(s)) && unchanged(this`tasks, this`sems, this`mutexes, this`lists, this`repr)
      requires forall o: object :: o in old(repr) && o != this && o != from && o != to ==> unchanged(o)
      ensures forall x :: x in tasks && tasks[x] != from && tasks[x] != to ==> unchanged(tasks[x])
      ensures forall i :: 0 <= i < |sems| ==> unchanged(sems[i])
      ensures forall i :: 0 <= i < |mutexes| ==> unchanged(mutexes[i])
      ensures forall r :: r in lists ==> lists[r].Valid() && lists[r].nodes == old(lists[r].nodes)
      ensures forall x :: x in tasks ==> tasks[x].runNode.home == old(tasks[x].runNode.home)
      ensures forall x :: x in tasks ==> tasks[x].waitNode.home == old(tasks[x].waitNode.home)
    {
      hide Placed, TasksOk, SyncsOk, List.Valid, Homed;
      forall r | r in lists ensures lists[r].Valid() && lists[r].nodes == old(lists[r].nodes) {
        assert old(ListOk(s, r));
      }
      hide LinksOk;
    }

    twostate lemma SwitchFields(new s: State, from: Task, new to: Task, new rest: bool)
      requires old(Represents(s)) && unchanged(this`tasks, this`sems, this`mutexes, this`lists, this`repr)
      requires from == old(currTask) && currTask == to && to != from && to.id in tasks && tasks[to.id] == to
      requires forall x :: x in tasks && tasks[x] != from && tasks[x] != to ==> unchanged(tasks[x])
      requires from.Block() == old(from.Block()) && from.walkPending == (rest || old(from.walkPending))
      requires to.Block() == old(to.Block()).(state := TaskState.Running) && !to.walkPending
      ensures to.id in s.tasks && Owned() && TasksOk(Switch(s, to.id, rest))
    {
      hide Placed, LinksOk, SyncsOk, ListsOwned;
      var s' := Switch(s, to.id, rest);
      forall x | x in tasks ensures tasks[x].Block() == s'.tasks[x] && (tasks[x].walkPending <==> x in s'.pending) {
        assert old(tasks[x].Block()) == s.tasks[x];
        assert old(tasks[x].walkPending) <==> x in s.pending;
        assert tasks[x].id == x;
      }
    }

    twostate lemma Switched(new s: State, from: Task, new to: Task, new rest: bool)
      requires old(Represents(s)) && unchanged(this`tasks, this`sems, this`mutexes, this`lists, this`repr)
      requires forall o: object :: o in old(repr) && o != this && o != from && o != to ==> unchanged(o)
      requires from == old(currTask) && currTask == to && to != from && to.id in tasks && tasks[to.id] == to
      requires from.Block() == old(from.Block()) && from.walkPending == (rest || old(from.walkPending))
      requires to.Block() == old(to.Block()).(state := TaskState.Running) && !to.walkPending
      ensures to.id in s.tasks && Represents(Switch(s, to.id, rest))
    {
      hide *;
      SwitchObjects(s, from, to);
      SwitchFields(s, from, to, rest);
      GetPlaced(s);
      SwitchLists(s, to.id, rest);
      SyncsSame(s, Switch(s, to.id, rest));
      LinksSame(s, Switch(s, to.id, rest));
      Represented(Switch(s, to.id, rest));
    }

    /**
     * Give the processor to `to`. The caller is suspended; `rest` says that it still has the walk of
     * the timer interrupt to do. `resumes` says that `to` was itself suspended there.
     */
    method TaskSwitch(to: Task, rest: bool, ghost s: State) returns (resumes: bool)
      requires Represents(s) && to.id in tasks && tasks[to.id] == to && to != currTask
      requires currTask != null
      modifies repr - {this}, this`currTask
      ensures currTask != null
      ensures to.id in s.tasks && Represents(Switch(s, to.id, rest))
      ensures resumes <==> to.id in s.pending
    {
      hide Represents, Owned, TasksOk, SyncsOk, LinksOk, Placed, Switch;
      var from := currTask;
      GetTcb(s, to.id);
      GetCurr(s);
      currTask := to;
      to.state := TaskState.Running;
      if rest {
        from.walkPending := true;
      }
      resumes := to.walkPending;
      to.walkPending := false;
      Switched(s, from, to, rest);
    }

    lemma GetCurr(s: State)
      requires Represents(s) && currTask != null
      ensures s.cur in tasks && currTask == tasks[s.cur] && currTask.id == s.cur && currTask in repr && s.cur in s.tasks
    {
    }

    /** The objects determine the state, up to the history that they do not store. */
    lemma RepresentsOne(s: State, s': State)
      requires Represents(s) && Represents(s')
      ensures SameKernel(s, s')
    {
      hide *;
      SameSizes(s, s');
      SameTasks(s, s');
      SameQueue(s, s', ReadyQ);
      SameQueue(s, s', SleepQ);
      forall i | 0 <= i < |sems| ensures s'.sems[i].waiters == s.sems[i].waiters && s'.sems[i].count == s.sems[i].count {
        GetSem(s, i);
        GetSem(s', i);
        SameQueue(s, s', SemQ(i));
      }
      forall i | 0 <= i < |mutexes|
        ensures s'.mutexes[i].waiters == s.mutexes[i].waiters
        ensures s'.mutexes[i].owner == s.mutexes[i].owner && s'.mutexes[i].lockedCount == s.mutexes[i].lockedCount
      {
        GetMutex(s, i);
        GetMutex(s', i);
        SameQueue(s, s', MutexQ(i));
        SameOwner(s, s', mutexes[i], s.mutexes[i], s'.mutexes[i]);
      }
      SameParts(s, s');
    }

    lemma SameSizes(s: State, s': State)
      requires Represents(s) && Represents(s')
      ensures |s.sems| == |sems| == |s'.sems| && |s.mutexes| == |mutexes| == |s'.mutexes|
      ensures ReadyQ in lists && SleepQ in lists
    {
      hide Placed, LinksOk, TasksOk;
    }

    lemma SameTasks(s: State, s': State)
      requires Represents(s) && Represents(s')
      ensures s'.cur == s.cur && s'.tasks == s.tasks && s'.pending == s.pending
    {
      hide Placed, LinksOk, ListsOwned, SyncsOk;
      assert s.cur == s'.cur by {
        assert tasks[s.cur].id == s.cur && tasks[s'.cur].id == s'.cur;
      }
    }

    lemma SameOwner(s: State, s': State, x: KernelMutex, m: Mutex, m': Mutex)
      requires Represents(s) && Represents(s') && MutexFields(x, m) && MutexFields(x, m')
      ensures m'.owner == m.owner && m'.lockedCount == m.lockedCount
    {
      hide Placed, LinksOk, ListsOwned, SyncsOk, TasksOk;
      if m.owner.Some? && m'.owner.Some? {
        assert tasks[m.owner.value].id == m.owner.value && tasks[m'.owner.value].id == m'.owner.value;
      }
    }

    lemma SameQueue(s: State, s': State, r: ListRef)
      requires Represents(s) && Represents(s') && r in lists
      ensures ListAt(s, r) == ListAt(s', r)
    {
      GetListOk(s, r);
      GetListOk(s', r);
      hide Placed, LinksOk, TasksOk, SyncsOk, ListAt, List.Valid;
      forall k | 0 <= k < |ListAt(s, r)| ensures ListAt(s, r)[k] == ListAt(s', r)[k] {
        assert lists[r].nodes[k] == NodeFor(r, ListAt(s, r)[k]) == NodeFor(r, ListAt(s', r)[k]);
        assert NodeFor(r, ListAt(s, r)[k]).owner == ListAt(s, r)[k];
      }
    }

    lemma SameRepresented(s: State, s': State)
      requires Represents(s) && SameKernel(s, s')
      ensures Represents(s')
    {
      hide Placed, SyncsOk, LinksOk, ListAt, ListsOwned;
      SameLists(s, s');
      SameSyncs(s, s');
      LinksThen(s, s');
    }

    lemma SameSyncs(s: State, s': State)
      requires Owned() && SyncsOk(s) && SameKernel(s, s')
      ensures SyncsOk(s')
    {
      hide ListsOwned;
    }

    lemma LinksThen(s: State, s': State)
      requires Owned() && LinksOk(s) && forall r :: ListAt(s', r) == ListAt(s, r)
      ensures LinksOk(s')
    {
      hide ListAt, Links, List.Valid;
      forall r | r in lists ensures ListOk(s', r) {
        assert ListOk(s, r);
        assert ListAt(s', r) == ListAt(s, r);
      }
      hide ListOk;
      forall x | x in tasks ensures Homed(s', tasks[x].runNode) && Homed(s', tasks[x].waitNode) {
        HomedThen(s, s', tasks[x].runNode);
        HomedThen(s, s', tasks[x].waitNode);
      }
    }

    lemma HomedThen(s: State, s': State, n: ListNode)
      requires Homed(s, n) && forall r :: ListAt(s', r) == ListAt(s, r)
      ensures Homed(s', n)
    {
      if n.home != null {
        var r2 :| r2 in lists && lists[r2] == n.home && n.owner in ListAt(s, r2) && n == NodeFor(r2, n.owner);
        assert n.owner in ListAt(s', r2);
      }
    }

    /**
     * The scheduler. A switch suspends the caller, so what follows the call in it is not carried out
     * now: `returned` is false, and `rest` has been recorded. The task switched to, if suspended in
     * the timer interrupt, walks the sleepers and dispatches, as it was about to do.
     */
    method TaskDispatch(rest: bool, ghost s: State) returns (returned: bool)
      requires Represents(s)
      requires currTask != null
      modifies repr - {this}, this`currTask
      ensures currTask != null
      ensures Known(s) && Represents(Dispatch(s, rest))
      ensures returned <==> NextRun(s) == s.cur
      decreases |s.pending| + (if rest then 1 else 0), 1
    {
      hide *;
      DispatchCases(s, rest);
      GetCurr(s);
      var to := TaskNextRun(s);
      returned := to == currTask;
      if !returned {
        SwitchAndResume(to, rest, s);
      }
    }

    /** The switch of the dispatcher, and what the task switched to had left to do. */
    method SwitchAndResume(to: Task, rest: bool, ghost s: State)
      requires Represents(s) && to.id in tasks && tasks[to.id] == to && to != currTask
      requires to.id == NextRun(s) && NextRun(s) != s.cur
      requires currTask != null
      modifies repr - {this}, this`currTask
      ensures currTask != null
      ensures Known(s) && Represents(Dispatch(s, rest))
      decreases |s.pending| + (if rest then 1 else 0), 0
    {
      hide *;
      DispatchCases(s, rest);
      ghost var s1 := Switch(s, NextRun(s), rest);
      var resumes := TaskSwitch(to, rest, s);
      if resumes {
        TickRest(s1);
      }
    }

    /** The second half of the timer interrupt: walk the sleepers, then dispatch. */
    method TickRest(ghost s: State)
      requires Represents(s)
      requires currTask != null
      modifies repr - {this}, this`currTask
      ensures currTask != null
      ensures Known(Walk(s)) && Represents(Dispatch(Walk(s), false))
      decreases |s.pending|, 2
    {
      hide *;
      WalkPending(s);
      SleepWalk(s);
      var _ := TaskDispatch(false, Walk(s));
    }

    lemma WalkPending(s: State)
      requires Represents(s)
      ensures Known(Walk(s)) && Walk(s).pending == s.pending
    {
      PlacedKnown(s);
      WalkKnown(s);
    }

    /** The three ways a dispatch can go. */
    lemma DispatchCases(s: State, rest: bool)
      requires Represents(s)
      ensures Known(s) && NextRun(s) in s.tasks
      ensures NextRun(s) == s.cur ==> Dispatch(s, rest) == s
      ensures var s1 := Switch(s, NextRun(s), rest);
              && (NextRun(s) != s.cur && NextRun(s) in s.pending ==>
                    && Known(Walk(s1)) && Dispatch(s, rest) == Dispatch(Walk(s1), false)
                    && |s1.pending| < |s.pending| + if rest then 1 else 0)
              && (NextRun(s) != s.cur && NextRun(s) !in s.pending ==> Dispatch(s, rest) == s1)
    {
      PlacedKnown(s);
      WalkKnown(Switch(s, NextRun(s), rest));
    }

    method CountSleep(task: Task, ghost s: State)
      requires Represents(s) && task.id in tasks && tasks[task.id] == task
      modifies repr - {this}
      ensures task.id in s.tasks && Represents(Counted(s, task.id))
      ensures task.sleepTicks == s.tasks[task.id].sleepTicks - 1
    {
      hide *;
      GetTcb(s, task.id);
      ghost var tcb := s.tasks[task.id].(sleepTicks := s.tasks[task.id].sleepTicks - 1);
      CountedIs(s, task.id, tcb);
      task.sleepTicks := task.sleepTicks - 1;
      TcbWritten(s, task);
      TcbIs(s, task, tcb);
    }

    method TaskSetWakeup(task: Task, ghost s: State)
      requires Represents(s) && task.id in tasks && tasks[task.id] == task && task.id in s.sleeping
      modifies repr - {this}
      ensures Represents(s.(sleeping := Without(s.sleeping, task.id)))
      ensures !On(s.(sleeping := Without(s.sleeping, task.id)), task.id)
    {
      hide *;
      GetReadyList(s);
      WakeupIs(s, task.id);
      Unlink(sleepList, task.runNode, SleepQ, task.id, s);
    }

    lemma WakeupIs(s: State, t: TaskId)
      requires Represents(s) && t in tasks && t in s.sleeping
      ensures NodeFor(SleepQ, t) == tasks[t].runNode && ListAt(s, SleepQ) == s.sleeping
      ensures Put(s, SleepQ, Without(s.sleeping, t)) == s.(sleeping := Without(s.sleeping, t))
      ensures !On(s.(sleeping := Without(s.sleeping, t)), t)
    {
      PutDrop(s, SleepQ, t);
    }

    /** The link at which the walk stands, and the one after it. */
    lemma WalkAt(s: State, k: nat)
      requires k < |s.sleeping| && Placed(s) && Represents(WalkPrefix(s, k))
      ensures var t := s.sleeping[k];
              && t in tasks && tasks[t].id == t && t in s.tasks && t in WalkPrefix(s, k).tasks
              && tasks[t].runNode.owner == t && WalkPrefix(s, k).tasks[t] == s.tasks[t]
              && (k + 1 < |s.sleeping| ==> s.sleeping[k + 1] in tasks)
              && tasks[t].runNode.next == if k + 1 < |s.sleeping| then tasks[s.sleeping[k + 1]].runNode else null
    {
      hide *;
      var p, j := WalkPrefix(s, k), |NotDue(s.sleeping[..k], s.tasks)|;
      WalkPrefixAt(s, k);
      Suffixes(p.sleeping, j, s.sleeping, k);
      GetReadyList(p);
      SleepersOf(p);
      GetNode(p, SleepQ, j);
      GetTcb(p, s.sleeping[k]);
      SleepLink(s.sleeping[k]);
      if k + 1 < |s.sleeping| {
        GetNode(p, SleepQ, j + 1);
        SleepLink(s.sleeping[k + 1]);
      }
    }

    lemma SleepLink(t: TaskId)
      requires t in tasks
      ensures NodeFor(SleepQ, t) == tasks[t].runNode
    {
    }

    lemma Suffixes(a: seq<TaskId>, j: nat, b: seq<TaskId>, k: nat)
      requires j < |a| && k < |b| && a[j..] == b[k..]
      ensures j + 1 < |a| <==> k + 1 < |b|
      ensures k + 1 < |b| ==> a[j + 1] == b[k + 1]
    {
      assert |a[j..]| == |b[k..]|;
      if k + 1 < |b| {
        assert a[j + 1] == a[j..][1] == b[k..][1];
      }
    }

    /** Where the walk starts. */
    lemma WalkBegin(s: State)
      requires Represents(s)
      ensures Placed(s) && WalkPrefix(s, 0) == s
      ensures |s.sleeping| > 0 ==> s.sleeping[0] in tasks
      ensures sleepList.first == if |s.sleeping| > 0 then tasks[s.sleeping[0]].runNode else null
    {
      WalkPrefixStart(s);
      GetReadyList(s);
      assert ListAt(s, SleepQ) == s.sleeping;
      GetListOk(s, SleepQ);
      if s.sleeping != [] {
        GetNode(s, SleepQ, 0);
      } else {
        assert sleepList.nodes == [];
      }
    }

    lemma WalkEnd(s: State)
      requires Represents(WalkPrefix(s, |s.sleeping|))
      ensures Represents(Walk(s))
    {
      WalkPrefixEnd(s);
      SameRepresented(WalkPrefix(s, |s.sleeping|), Walk(s));
    }

    /** The walk's work on one sleeper. */
    method SleepTick(task: Task, ghost k: nat, ghost s: State)
      requires k < |s.sleeping| && Placed(s) && Represents(WalkPrefix(s, k))
      requires s.sleeping[k] in tasks && task == tasks[s.sleeping[k]]
      modifies repr - {this}
      ensures Represents(WalkPrefix(s, k + 1))
    {
      hide *;
      WalkAt(s, k);
      WalkWork(s, k);
      ghost var p := WalkPrefix(s, k);
      CountSleep(task, p);
      if task.sleepTicks == 0 {
        TaskSetWakeup(task, Counted(p, task.id));
        TaskSetReady(task, Counted(p, task.id).(sleeping := Without(p.sleeping, task.id)));
      }
    }

    /**
     * The walk of the timer interrupt over the sleep list. A woken task's link moves to the ready list
     * while the walk stands on it; the next link is read before that.
     */
    method SleepWalk(ghost s: State)
      requires Represents(s)
      modifies repr - {this}
      ensures Represents(Walk(s))
    {
      hide *;
      ghost var k := 0;
      WalkBegin(s);
      var curr := sleepList.first;
      while curr != null
        invariant k <= |s.sleeping| && Represents(WalkPrefix(s, k)) && Placed(s)
        invariant k < |s.sleeping| ==> s.sleeping[k] in tasks && curr == tasks[s.sleeping[k]].runNode
        invariant k == |s.sleeping| ==> curr == null
        decreases |s.sleeping| - k
      {
        WalkAt(s, k);
        var next := curr.next;
        SleepTick(tasks[curr.owner], k, s);
        curr := next;
        k := k + 1;
      }
      WalkEnd(s);
    }

    // ----- the steps

    lemma GetCurOff(s: State)
      requires Represents(s) && (s.cur == IDLE || s.cur in s.ready)
      ensures s.cur in s.tasks && !On(SetBlock(s, s.cur), s.cur)
      ensures SetBlock(s, s.cur).cur == s.cur
    {
      CurOffWhenBlocked(s);
    }

    /** Move the current task to the back of the ready list. */
    method TaskRotate(ghost s: State)
      requires currTask != null
      requires Represents(s) && (s.cur == IDLE || s.cur in s.ready)
      modifies repr - {this}
      ensures s.cur in s.tasks && Represents(Rotate(s))
    {
      hide *;
      GetCurr(s);
      GetCurOff(s);
      RotateIs(s);
      var curr := currTask;
      TaskSetBlock(curr, s);
      TaskSetReady(curr, SetBlock(s, s.cur));
    }

    method SchedYield(ghost s: State)
      requires Represents(s) && Inv(s) && Enabled(s, Yield)
      requires currTask != null
      modifies repr - {this}, this`currTask
      ensures currTask != null
      ensures Known(s) && Inv(Step(s, Yield)) && Represents(Step(s, Yield))
    {
      hide *;
      StepIs(s, Yield);
      CurReady(s);
      GetReadyList(s);
      GetReadyCount(s);
      YieldIs(s);
      if readyList.count > 1 {
        TaskRotate(s);
        var _ := TaskDispatch(false, Rotate(s));
      }
    }

    lemma GetReadyCount(s: State)
      requires Represents(s)
      ensures readyList.count == |s.ready|
    {
      GetReadyList(s);
      GetListOk(s, ReadyQ);
    }

    // ----- the timer interrupt

    method UseSliceTick(ghost s: State) returns (expired: bool)
      requires currTask != null
      requires Represents(s)
      modifies repr - {this}
      ensures s.cur in s.tasks && Represents(UseSlice(s))
      ensures expired <==> s.tasks[s.cur].sliceTicks == 1
    {
      hide *;
      GetCurr(s);
      GetTcb(s, s.cur);
      ghost var tcb := s.tasks[s.cur].(sliceTicks := s.tasks[s.cur].sliceTicks - 1);
      ghost var s1 := s.(tasks := s.tasks[s.cur := tcb]);
      UseSliceIs(s, s1, tcb);
      var curr := currTask;
      curr.sliceTicks := curr.sliceTicks - 1;
      expired := curr.sliceTicks == 0;
      TcbWritten(s, curr);
      TcbIs(s, curr, tcb);
      SameRepresented(s1, UseSlice(s));
    }

    method RefillSlice(ghost s: State)
      requires currTask != null
      requires Represents(s)
      modifies repr - {this}
      ensures s.cur in s.tasks && Represents(Refill(s))
    {
      hide *;
      GetCurr(s);
      GetTcb(s, s.cur);
      ghost var tcb := s.tasks[s.cur].(sliceTicks := s.tasks[s.cur].timeTicks);
      RefillIs(s);
      var curr := currTask;
      curr.sliceTicks := curr.timeTicks;
      TcbWritten(s, curr);
      TcbIs(s, curr, tcb);
    }

    /** A used-up slice: a new one, the back of the ready list, and the dispatcher. */
    method EndSlice(ghost s: State) returns (returned: bool)
      requires Represents(s) && (s.cur == IDLE || s.cur in s.ready)
      requires currTask != null
      modifies repr - {this}, this`currTask
      ensures currTask != null
      ensures s.cur in s.tasks && Refill(s).cur in Refill(s).tasks
      ensures var s1 := Rotate(Refill(s));
              Known(s1) && Represents(Dispatch(s1, true)) && (returned <==> NextRun(s1) == s1.cur)
    {
      hide *;
      GetCurr(s);
      RefillCur(s);
      RefillSlice(s);
      TaskRotate(Refill(s));
      returned := TaskDispatch(true, Rotate(Refill(s)));
    }

    /**
     * The timer interrupt. If the slice is used up and another task gets the processor, the caller is
     * suspended before the walk, which `TaskDispatch` then does when it is the caller's turn again.
     */
    method TaskTimeTick(ghost s: State)
      requires Represents(s) && Inv(s)
      requires currTask != null
      modifies repr - {this}, this`currTask
      ensures currTask != null
      ensures Known(s) && Inv(Step(s, Tick)) && Represents(Step(s, Tick))
    {
      hide *;
      TickCases(s);
      ghost var w := BeforeWalk(s);
      var expired := UseSliceTick(s);
      if expired {
        var returned := EndSlice(UseSlice(s));
        if !returned {
          return;
        }
      }
      TickRest(w);
    }

    // ----- sleeping

    method TaskSetSleep(task: Task, ticks: nat, ghost s: State)
      requires Represents(s) && task.id in tasks && tasks[task.id] == task && task.id != IDLE && !On(s, task.id)
      modifies repr - {this}
      ensures task.id in s.tasks && Represents(SetSleep(s, task.id, ticks))
    {
      hide *;
      GetTcb(s, task.id);
      SetSleepIs(s, task.id, ticks);
      if ticks == 0 {
        return;
      }
      MarkAsleep(task, ticks, s);
      LinkLast(sleepList, task.runNode, SleepQ, task.id, Marked(s, task.id, ticks));
    }

    method MarkAsleep(task: Task, ticks: nat, ghost s: State)
      requires Represents(s) && task.id in tasks && tasks[task.id] == task
      modifies repr - {this}
      ensures task.id in s.tasks && Represents(Marked(s, task.id, ticks))
    {
      hide Represents, Marked;
      GetTcb(s, task.id);
      ghost var tcb := s.tasks[task.id].(sleepTicks := ticks, state := Asleep);
      MarkedIs(s, task.id, ticks);
      hide *;
      task.sleepTicks := ticks;
      task.state := TaskState.Asleep;
      TcbWritten(s, task);
      TcbIs(s, task, tcb);
    }

    lemma SetSleepIs(s: State, t: TaskId, ticks: nat)
      requires Represents(s) && t in tasks && !On(s, t)
      ensures SleepQ in lists && lists[SleepQ] == sleepList && NodeFor(SleepQ, t) == tasks[t].runNode
      ensures t in s.tasks && !On(Marked(s, t, ticks), t)
      ensures SetSleep(s, t, 0) == s
      ensures var s1 := Marked(s, t, ticks);
              ticks > 0 ==> SetSleep(s, t, ticks) == Put(s1, SleepQ, ListAt(s1, SleepQ) + [t])
    {
      GetTcb(s, t);
      GetReadyList(s);
      MarkedOff(s, t, ticks);
      hide Represents, Placed, On;
    }

    method Sleep(ms: nat, ghost s: State)
      requires Represents(s) && Inv(s) && Enabled(s, SleepMs(ms))
      requires currTask != null
      modifies repr - {this}, this`currTask
      ensures currTask != null
      ensures Known(s) && Inv(Step(s, SleepMs(ms))) && Represents(Step(s, SleepMs(ms)))
    {
      hide *;
      StepIs(s, SleepMs(ms));
      CurReady(s);
      GetCurr(s);
      GetCurOff(s);
      SleepIs(s, ms);
      var curr := currTask;
      TaskSetBlock(curr, s);
      TaskSetSleep(curr, SleepTicks(ms), SetBlock(s, s.cur));
      var _ := TaskDispatch(false, SetSleep(SetBlock(s, s.cur), s.cur, SleepTicks(ms)));
    }

    // ----- semaphores, mutexes and the tasks that wait at them

    lemma GetSem(s: State, i: nat)
      requires Represents(s) && i < |sems|
      ensures |s.sems| == |sems| && sems[i] in repr && sems[i].count == s.sems[i].count
      ensures SemQ(i) in lists && lists[SemQ(i)] == sems[i].waitList && ListAt(s, SemQ(i)) == s.sems[i].waiters
      ensures sems[i].waitList.count == |s.sems[i].waiters|
    {
      GetListOk(s, SemQ(i));
      hide Placed, LinksOk, TasksOk, List.Valid;
    }

    /** Nothing about the tasks depends on semaphores and mutexes. */
    twostate lemma TasksSame(s: State, new s': State)
      requires old(Represents(s)) && Owned() && unchanged(this`currTask, this`tasks)
      requires s' == s.(sems := s'.sems, mutexes := s'.mutexes)
      requires forall x :: x in tasks ==> unchanged(tasks[x])
      ensures TasksOk(s')
    {
      hide Placed, LinksOk, SyncsOk, ListsOwned;
    }

    twostate lemma StillOwned(s: State)
      requires old(Represents(s)) && unchanged(this`tasks, this`sems, this`mutexes, this`lists, this`repr)
      ensures Owned()
    {
      hide Placed, LinksOk, SyncsOk, ListsOwned, TasksOk;
    }

    /** The current task leaves the ready list and waits in a queue. */
    method BlockOn(l: List, ghost r: ListRef, ghost s: State, ghost s': State)
      requires Represents(s) && r in lists && lists[r] == l && (r.SemQ? || r.MutexQ?)
      requires s.cur != IDLE && s.cur in s.ready
      requires (r.SemQ? ==> r.i < |s.sems|) && (r.MutexQ? ==> r.i < |s.mutexes|) && SameKernel(Queued(s, r), s')
      requires currTask != null
      modifies repr - {this}
      ensures Represents(s')
    {
      hide *;
      GetCurr(s);
      GetCurOff(s);
      GetListOk(s, r);
      QueuedIs(s, r);
      var curr := currTask;
      TaskSetBlock(curr, s);
      LinkLast(l, curr.waitNode, r, s.cur, SetBlock(s, s.cur));
      SameRepresented(Queued(s, r), s');
    }

    lemma QueuedIs(s: State, r: ListRef)
      requires (r.SemQ? ==> r.i < |s.sems|) && (r.MutexQ? ==> r.i < |s.mutexes|) && s.cur in tasks
      ensures var b := SetBlock(s, s.cur); Queued(s, r) == Put(b, r, ListAt(b, r) + [s.cur])
      ensures r.SemQ? || r.MutexQ? ==> NodeFor(r, s.cur) == tasks[s.cur].waitNode
    {
    }

    /** The first task of a queue becomes ready. */
    method ReleaseFirst(l: List, ghost r: ListRef, ghost s: State, ghost s': State) returns (task: Task)
      requires Represents(s) && r in lists && lists[r] == l && ListAt(s, r) != []
      requires (r.SemQ? ==> r.i < |s.sems|) && (r.MutexQ? ==> r.i < |s.mutexes|)
      requires ListAt(s, r)[0] in s.tasks && SameKernel(Released(s, r), s')
      modifies repr - {this}
      ensures ListAt(s, r)[0] in tasks && task == tasks[ListAt(s, r)[0]]
      ensures Represents(s')
    {
      hide *;
      ReleasedIs(s, r);
      var node := UnlinkFirst(l, r, s);
      task := tasks[node.owner];
      TaskSetReady(task, Put(s, r, Without(ListAt(s, r), ListAt(s, r)[0])));
      SameRepresented(Released(s, r), s');
    }

    lemma ReleasedIs(s: State, r: ListRef)
      requires Represents(s) && r in lists && ListAt(s, r) != []
      ensures r.SemQ? ==> r.i < |s.sems|
      ensures r.MutexQ? ==> r.i < |s.mutexes|
      ensures var t := ListAt(s, r)[0];
              && t in s.tasks && t in tasks && tasks[t].id == t
              && var s1 := Put(s, r, Without(ListAt(s, r), t));
                 !On(s1, t) && t in s1.tasks && Released(s, r) == SetReady(s1, t)
    {
      GetHead(s, r);
      GetTcb(s, ListAt(s, r)[0]);
      PutDrop(s, r, ListAt(s, r)[0]);
      hide Represents, Placed, On;
    }

    lemma GetMutex(s: State, i: nat)
      requires Represents(s) && i < |mutexes|
      ensures |s.mutexes| == |mutexes| && mutexes[i] in repr && MutexFields(mutexes[i], s.mutexes[i])
      ensures MutexQ(i) in lists && lists[MutexQ(i)] == mutexes[i].waitList && ListAt(s, MutexQ(i)) == s.mutexes[i].waiters
      ensures mutexes[i].waitList.count == |s.mutexes[i].waiters|
    {
      GetListOk(s, MutexQ(i));
      hide Placed, LinksOk, TasksOk, List.Valid;
    }

    // ----- new objects

    /** After adding objects that nothing refers to, and nothing else changed. */
    twostate lemma Grown(s: State, new s': State)
      requires old(Represents(s)) && old(tasks).Keys <= tasks.Keys && old(lists).Keys <= lists.Keys
      requires unchanged(this`currTask) && old(sems) <= sems && old(mutexes) <= mutexes && old(repr) <= repr
      requires forall t :: t in old(tasks) ==> tasks[t] == old(tasks)[t]
      requires forall r :: r in old(lists) ==> lists[r] == old(lists)[r]
      requires forall o: object :: o in old(repr) && o != this ==> unchanged(o)
      requires forall r :: ListAt(s', r) == ListAt(s, r)
      requires Owned() && TasksOk(s') && SyncsOk(s') && Placed(s')
      requires forall r :: r in lists && r !in old(lists) ==>
                 lists[r].Valid() && lists[r].nodes == [] && ListAt(s', r) == []
      requires forall t :: t in tasks && t !in old(tasks) ==> tasks[t].runNode.home == tasks[t].waitNode.home == null
      ensures Represents(s')
    {
      hide Placed, TasksOk, SyncsOk, List.Valid, ListAt, Homed;
      forall r | r in lists ensures ListOk(s', r) {
        if r in old(lists) {
          ListGrown(s, s', r);
        }
      }
      forall t | t in tasks ensures Homed(s', tasks[t].runNode) && Homed(s', tasks[t].waitNode) {
        hide ListOk;
        if t in old(tasks) {
          WasHomed(s, t);
          HomedGrown(s, s', tasks[t].runNode);
          HomedGrown(s, s', tasks[t].waitNode);
        } else {
          NotHomed(s', tasks[t].runNode);
          NotHomed(s', tasks[t].waitNode);
        }
      }
      hide *;
      LinksOkFrom(s');
      Represented(s');
    }

    twostate lemma ListGrown(s: State, new s': State, new r: ListRef)
      requires old(Represents(s)) && r in old(lists) && r in lists && lists[r] == old(lists)[r] && lists[r] in repr
      requires old(tasks).Keys <= tasks.Keys && forall t :: t in old(tasks) ==> tasks[t] == old(tasks)[t]
      requires forall o: object :: o in old(repr) && o != this ==> unchanged(o)
      requires old(repr) <= repr && ListAt(s', r) == ListAt(s, r)
      ensures ListOk(s', r)
    {
      hide Placed, TasksOk, SyncsOk, List.Valid, ListAt, Homed;
      assert old(ListOk(s, r));
    }

    twostate lemma WasHomed(s: State, new t: TaskId)
      requires old(Represents(s)) && t in old(tasks)
      ensures old(Homed(s, tasks[t].runNode)) && old(Homed(s, tasks[t].waitNode))
      ensures old(tasks[t]).runNode in old(repr) && old(tasks[t]).waitNode in old(repr)
    {
      hide Placed, TasksOk, SyncsOk, Homed, ListOk, ListsOwned;
    }

    lemma NotHomed(s: State, n: ListNode)
      requires n.home == null
      ensures Homed(s, n)
    {
    }

    lemma LinksOkFrom(s: State)
      requires Owned() && (forall r :: r in lists ==> lists[r] in repr && ListOk(s, r))
      requires forall t :: t in tasks ==> Homed(s, tasks[t].runNode) && Homed(s, tasks[t].waitNode)
      ensures LinksOk(s)
    {
    }

    twostate lemma HomedGrown(new s: State, new s': State, n: ListNode)
      requires old(Homed(s, n)) && n.home == old(n.home)
      requires forall t :: t in old(tasks) ==> t in tasks && tasks[t] == old(tasks)[t]
      requires forall r :: r in old(lists) ==> r in lists && lists[r] == old(lists)[r]
      requires forall r :: ListAt(s', r) == ListAt(s, r)
      ensures Homed(s', n)
    {
      if n.home != null {
        var r2 :| r2 in old(lists) && old(lists)[r2] == n.home && n.owner in ListAt(s, r2) && n.owner in old(tasks)
                  && n == old(NodeFor(r2, n.owner));
        assert n.owner in ListAt(s', r2);
      }
    }

    /** Objects that were there before are not among the new ones. */
    twostate lemma OldObjects(s: State)
      requires old(Represents(s))
      requires forall o: object :: o in old(repr) && o != this ==> unchanged(o)
      ensures forall x :: x in old(tasks) ==> unchanged(old(tasks)[x])
      ensures forall i :: 0 <= i < |old(sems)| ==> old(sems)[i] in old(repr) && unchanged(old(sems)[i])
      ensures forall i :: 0 <= i < |old(mutexes)| ==> old(mutexes)[i] in old(repr) && unchanged(old(mutexes)[i])
      ensures forall r :: r in old(lists) ==> old(lists)[r] in old(repr)
      ensures forall x :: x in old(tasks) ==>
                old(tasks)[x] in old(repr) && old(tasks)[x].runNode in old(repr) && old(tasks)[x].waitNode in old(repr)
      ensures |s.sems| == |old(sems)| && |s.mutexes| == |old(mutexes)|
      ensures SemQ(|old(sems)|) !in old(lists) && MutexQ(|old(mutexes)|) !in old(lists)
    {
      hide Placed, LinksOk;
    }

    /** Semaphores, mutexes and tasks, after new ones of them were added. */
    twostate lemma ObjectsOwned(s: State)
      requires old(Represents(s)) && ListsOwned() && old(repr) <= repr && unchanged(this`tasks)
      requires old(sems) <= sems && old(mutexes) <= mutexes
      requires forall i :: |old(sems)| <= i < |sems| ==> sems[i] in repr && sems[i] !in old(repr)
      requires forall i :: |old(mutexes)| <= i < |mutexes| ==> mutexes[i] in repr && mutexes[i] !in old(repr)
      requires |sems| <= |old(sems)| + 1 && |mutexes| <= |old(mutexes)| + 1
      ensures Owned()
    {
      hide Placed, LinksOk, TasksOk, SyncsOk, ListsOwned;
    }

    twostate lemma TaskAdded(s: State, new s': State, new task: Task)
      requires old(Represents(s)) && unchanged(this`currTask, this`sems, this`mutexes, this`lists)
      requires task.id !in old(tasks) && tasks == old(tasks)[task.id := task] && task.New(task.id)
      requires repr == old(repr) + {task, task.runNode, task.waitNode}
      requires task !in old(repr) && task.runNode !in old(repr) && task.waitNode !in old(repr)
      requires forall o: object :: o in old(repr) && o != this ==> unchanged(o)
      requires s' == s.(tasks := s.tasks[task.id := NEW_TCB])
      ensures Represents(s') && !On(s', task.id)
    {
      hide *;
      GetPlaced(s);
      TaskAddedOwned(s, s', task);
      TaskAddedLists(s, s', task.id);
      Grown(s, s');
    }

    twostate lemma TaskAddedOwned(s: State, new s': State, new task: Task)
      requires old(Represents(s)) && unchanged(this`currTask, this`sems, this`mutexes, this`lists)
      requires task.id !in old(tasks) && tasks == old(tasks)[task.id := task] && task.New(task.id)
      requires repr == old(repr) + {task, task.runNode, task.waitNode}
      requires task !in old(repr) && task.runNode !in old(repr) && task.waitNode !in old(repr)
      requires forall o: object :: o in old(repr) && o != this ==> unchanged(o)
      requires s' == s.(tasks := s.tasks[task.id := NEW_TCB])
      ensures Owned() && TasksOk(s') && SyncsOk(s') && task.runNode.home == task.waitNode.home == null
    {
      hide Placed, LinksOk;
      assert ListsOwned();
      hide ListsOwned;
      assert Owned();
      hide TasksOk;
      TaskAddedSyncs(s, s', task);
      hide SyncsOk;
      TaskAddedTasks(s, s', task);
    }

    twostate lemma TaskAddedSyncs(s: State, new s': State, new task: Task)
      requires old(Represents(s)) && Owned() && unchanged(this`sems, this`mutexes, this`lists)
      requires task.id !in old(tasks) && tasks == old(tasks)[task.id := task]
      requires forall o: object :: o in old(repr) && o != this ==> unchanged(o)
      requires s' == s.(tasks := s.tasks[task.id := NEW_TCB])
      ensures SyncsOk(s')
    {
      hide Placed, LinksOk, TasksOk, ListsOwned;
      assert forall i :: 0 <= i < |mutexes| ==> mutexes[i] in old(repr) && old(MutexFields(mutexes[i], s.mutexes[i]));
    }

    twostate lemma TaskAddedTasks(s: State, new s': State, new task: Task)
      requires old(Represents(s)) && Owned() && unchanged(this`currTask)
      requires task.id !in old(tasks) && tasks == old(tasks)[task.id := task] && task.New(task.id)
      requires forall o: object :: o in old(repr) && o != this ==> unchanged(o)
      requires s' == s.(tasks := s.tasks[task.id := NEW_TCB])
      ensures TasksOk(s')
    {
      hide Represents, Owned;
      OldObjects(s);
      TaskTable(s, s', task);
    }

    twostate lemma TaskTable(s: State, new s': State, new task: Task)
      requires old(Represents(s)) && Owned() && unchanged(this`currTask)
      requires task.id !in old(tasks) && tasks == old(tasks)[task.id := task] && task.New(task.id)
      requires forall x :: x in old(tasks) ==> unchanged(old(tasks)[x])
      requires s' == s.(tasks := s.tasks[task.id := NEW_TCB])
      ensures TasksOk(s')
    {
      hide Placed, LinksOk, SyncsOk, ListsOwned;
    }

    /** Create a task and make it ready. */
    method NewTask(id: TaskId, ghost s: State) returns (task: Task)
      requires Represents(s) && id !in s.tasks
      modifies repr
      ensures fresh(repr - old(repr)) && id in tasks && task == tasks[id] && task.id == id && currTask == old(currTask)
      ensures id in s.tasks[id := NEW_TCB] && Represents(SetReady(s.(tasks := s.tasks[id := NEW_TCB]), id))
    {
      hide *;
      GetThis(s);
      ghost var s1 := s.(tasks := s.tasks[id := NEW_TCB]);
      task := new Task(id);
      Register(task, s);
      TaskSetReady(task, s1);
    }

    method TaskInit(id: TaskId, ghost s: State) returns (task: Task)
      requires Represents(s) && Inv(s) && Enabled(s, Spawn(id))
      modifies repr
      ensures fresh(repr - old(repr)) && id in tasks && task == tasks[id] && currTask == old(currTask)
      ensures task.state == Ready && task.sleepTicks == 0 && task.timeTicks == task.sliceTicks == 10
      ensures Known(s) && Inv(Step(s, Spawn(id))) && Represents(Step(s, Spawn(id)))
    {
      hide *;
      InvKnown(s);
      SpawnIs(s, id);
      StepIs(s, Spawn(id));
      NewTaskWaitsItsTurn(s, id);
      task := NewTask(id, s);
      GetTcb(Step(s, Spawn(id)), id);
    }

    /** The first task is created and becomes the current one: the boot state of the scheduler. */
    method TaskFirstInit()
      requires Represents(BOOT) && currTask == null
      modifies repr
      ensures fresh(repr - old(repr)) && currTask != null && Represents(START) && Inv(START)
      ensures currTask.state == Ready && currTask.sleepTicks == 0 && currTask.timeTicks == currTask.sliceTicks == 10
    {
      hide *;
      BootStates();
      GetThis(BOOT);
      var first := NewTask(FIRST, BOOT);
      SetCurrent(first, SetReady(BOOT.(tasks := BOOT.tasks[FIRST := NEW_TCB]), FIRST));
      GetTcb(START, FIRST);
    }

    method SetCurrent(first: Task, ghost s: State)
      requires Represents(s) && first.id in tasks && tasks[first.id] == first
      modifies this`currTask
      ensures Represents(s.(cur := first.id)) && currTask == first
    {
      currTask := first;
      CurrentSet(s, first);
    }

    twostate lemma CurrentSet(new s: State, first: Task)
      requires old(Represents(s)) && first.id in tasks && tasks[first.id] == first && currTask == first
      requires unchanged(this`tasks, this`sems, this`mutexes, this`lists, this`repr)
      requires forall o: object :: o in old(repr) && o != this ==> unchanged(o)
      ensures Represents(s.(cur := first.id))
    {
      hide *;
      var s' := s.(cur := first.id);
      SwitchObjects(s, first, first);
      GetPlaced(s);
      StillOwned(s);
      CurrentTasks(s, first);
      CurrentLists(s, first.id);
      SyncsSame(s, s');
      LinksSame(s, s');
      Represented(s');
    }

    twostate lemma CurrentTasks(new s: State, first: Task)
      requires old(Represents(s)) && Owned() && first.id in tasks && tasks[first.id] == first && currTask == first
      requires unchanged(this`tasks) && forall o: object :: o in old(repr) && o != this ==> unchanged(o)
      ensures TasksOk(s.(cur := first.id))
    {
      hide Placed, LinksOk, SyncsOk, ListsOwned;
    }

    lemma GetThis(s: State)
      requires Represents(s)
      ensures this in repr && tasks.Keys == s.tasks.Keys
    {
    }

    method Register(task: Task, ghost s: State)
      requires Represents(s) && task.id !in tasks && task.New(task.id)
      requires task !in repr && task.runNode !in repr && task.waitNode !in repr
      modifies this
      ensures tasks == old(tasks)[task.id := task] && repr == old(repr) + {task, task.runNode, task.waitNode}
      ensures currTask == old(currTask)
      ensures var s1 := s.(tasks := s.tasks[task.id := NEW_TCB]); Represents(s1) && !On(s1, task.id)
    {
      hide *;
      tasks := tasks[task.id := task];
      repr := repr + {task, task.runNode, task.waitNode};
      TaskAdded(s, s.(tasks := s.tasks[task.id := NEW_TCB]), task);
    }
  }
}
