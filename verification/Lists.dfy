/** The kernel's intrusive doubly linked list. */
module Lists {
  import opened Seqs

  /**
   * A link embedded in a task. The kernel recovers the task from the link's address;
   * `owner` is the identity of the enclosing task that this recovers.
   */
  class ListNode {
    const owner: nat
    var pre: ListNode?
    var next: ListNode?
    /** The list the link is on. */
    ghost var home: List?

    constructor (owner: nat)
      ensures this.owner == owner && pre == null && next == null && home == null
    {
      this.owner := owner;
      pre := null;
      next := null;
      home := null;
    }
  }

  class List {
    var first: ListNode?
    var last: ListNode?
    var count: int
    ghost var nodes: seq<ListNode>

    ghost predicate Valid()
      reads this, nodes
    {
      && Distinct(nodes)
      && (forall i :: 0 <= i < |nodes| ==> nodes[i].home == this)
      && count == |nodes|
      && (nodes == [] ==> first == null && last == null)
      && (nodes != [] ==> first == nodes[0] && last == nodes[|nodes| - 1])
      && (forall i {:trigger nodes[i].pre} :: 0 <= i < |nodes| ==>
            nodes[i].pre == if i == 0 then null else nodes[i - 1])
      && (forall i {:trigger nodes[i].next} :: 0 <= i < |nodes| ==>
            nodes[i].next == if i == |nodes| - 1 then null else nodes[i + 1])
    }

    constructor ()
      ensures Valid() && nodes == []
    {
      first, last := null, null;
      count := 0;
      nodes := [];
    }

    method InsertFirst(node: ListNode)
      requires Valid() && node.home == null
      modifies this, node, first
      ensures Valid() && nodes == [node] + old(nodes)
      ensures forall n: ListNode {:trigger n.home} :: old(allocated(n)) && n != node ==> n.home == old(n.home)
      ensures forall l: List {:trigger l.Valid()} :: old(allocated(l)) && l != this && old(l.Valid()) ==>
                l.Valid() && l.nodes == old(l.nodes)
    {
      node.home := this;
      node.next := first;
      node.pre := null;
      if count == 0 {
        last := node;
        first := node;
      } else {
        first.pre := node;
        first := node;
      }
      count := count + 1;
      nodes := [node] + nodes;
    }

    method InsertLast(node: ListNode)
      requires Valid() && node.home == null
      modifies this, node, last
      ensures Valid() && nodes == old(nodes) + [node]
      ensures forall n: ListNode {:trigger n.home} :: old(allocated(n)) && n != node ==> n.home == old(n.home)
      ensures forall l: List {:trigger l.Valid()} :: old(allocated(l)) && l != this && old(l.Valid()) ==>
                l.Valid() && l.nodes == old(l.nodes)
    {
      node.home := this;
      node.pre := last;
      node.next := null;
      if count == 0 {
        first := node;
      } else {
        last.next := node;
      }
      last := node;
      count := count + 1;
      nodes := nodes + [node];
    }

    method RemoveFirst() returns (removed: ListNode?)
      requires Valid()
      modifies this, first, if first == null then null else first.next
      ensures Valid()
      ensures old(nodes) == [] ==> removed == null && nodes == []
      ensures old(nodes) != [] ==>
                && removed == old(nodes)[0]
                && nodes == old(nodes)[1..]
                && removed.pre == null && removed.next == null && removed.home == null
      ensures forall n: ListNode {:trigger n.home} :: old(allocated(n)) && n != removed ==> n.home == old(n.home)
      ensures forall l: List {:trigger l.Valid()} :: old(allocated(l)) && l != this && old(l.Valid()) ==>
                l.Valid() && l.nodes == old(l.nodes)
    {
      if count == 0 {
        return null;
      }
      removed := first;
      first := removed.next;
      if first == null {
        last := null;
      } else {
        first.pre := null;
      }
      removed.next := null;
      removed.pre := null;
      removed.home := null;
      count := count - 1;
      nodes := nodes[1..];
    }

    /** The code does not look for `node`; its callers only pass a node of this list. */
    method Remove(node: ListNode) returns (removed: ListNode, ghost k: nat)
      requires Valid() && node in nodes
      modifies this, node, node.pre, node.next
      ensures Valid() && k < |old(nodes)| && node == old(nodes)[k]
      ensures nodes == old(nodes)[..k] + old(nodes)[k + 1..]
      ensures removed == node && node.pre == null && node.next == null && node.home == null
      ensures forall n: ListNode {:trigger n.home} :: old(allocated(n)) && n != node ==> n.home == old(n.home)
      ensures forall l: List {:trigger l.Valid()} :: old(allocated(l)) && l != this && old(l.Valid()) ==>
                l.Valid() && l.nodes == old(l.nodes)
    {
      k :| 0 <= k < |nodes| && nodes[k] == node;
      ghost var prev, succ := node.pre, node.next;
      assert node == first <==> k == 0;
      assert node == last <==> k == |nodes| - 1;
      assert prev != node && succ != node && (prev != null ==> prev != succ);
      if node == first {
        first := node.next;
      }
      if node == last {
        last := node.pre;
      }
      if node.pre != null {
        node.pre.next := node.next;
      }
      if node.next != null {
        node.next.pre := node.pre;
      }
      node.next := null;
      node.pre := null;
      node.home := null;
      count := count - 1;
      nodes := nodes[..k] + nodes[k + 1..];
      hide Valid, Distinct;
      Spliced(k, node, prev, succ);
      forall l: List {:trigger l.Valid()} | old(allocated(l)) && l != this && old(l.Valid())
        ensures l.Valid() && l.nodes == old(l.nodes)
      {
        OtherKept(k, node, prev, succ, l);
      }
      removed := node;
    }

    /** Joining the two neighbours of position `k` leaves a well-formed list without that position. */
    twostate lemma Spliced(new k: nat, node: ListNode, new prev: ListNode?, new succ: ListNode?)
      requires old(Valid()) && k < |old(nodes)| && node == old(nodes)[k]
      requires prev == old(node.pre) && succ == old(node.next)
      requires nodes == old(nodes)[..k] + old(nodes)[k + 1..] && count == old(count) - 1
      requires first == if k == 0 then succ else old(first)
      requires last == if k == |old(nodes)| - 1 then prev else old(last)
      requires forall o: ListNode :: old(allocated(o)) && o != node && o != succ ==> o.pre == old(o.pre)
      requires forall o: ListNode :: old(allocated(o)) && o != node && o != prev ==> o.next == old(o.next)
      requires forall o: ListNode :: old(allocated(o)) && o != node ==> o.home == old(o.home)
      requires succ != null ==> succ.pre == prev
      requires prev != null ==> prev.next == succ
      ensures Valid()
    {
      var s := old(nodes);
      assert prev == if k == 0 then null else s[k - 1];
      assert succ == if k == |s| - 1 then null else s[k + 1];
      forall i | 0 <= i < |s| && i != k ensures s[i].home == this {
        assert old(s[i].home) == this;
      }
      forall i | 0 <= i < |s| && i != k && i != k + 1 ensures s[i].pre == if i == 0 then null else s[i - 1] {
        assert old(s[i].pre) == if i == 0 then null else s[i - 1];
      }
      forall i | 0 <= i < |s| && i != k && i != k - 1 ensures s[i].next == if i == |s| - 1 then null else s[i + 1] {
        assert old(s[i].next) == if i == |s| - 1 then null else s[i + 1];
      }
      CutLinks(s, k);
    }

    /** The sequence without position `k` is linked when its two neighbours are joined. */
    lemma CutLinks(s: seq<ListNode>, k: nat)
      requires k < |s| && Distinct(s) && nodes == s[..k] + s[k + 1..]
      requires forall i {:trigger s[i].pre} :: 0 <= i < |s| && i != k && i != k + 1 ==>
                 s[i].pre == if i == 0 then null else s[i - 1]
      requires forall i {:trigger s[i].next} :: 0 <= i < |s| && i != k && i != k - 1 ==>
                 s[i].next == if i == |s| - 1 then null else s[i + 1]
      requires forall i :: 0 <= i < |s| && i != k ==> s[i].home == this
      requires k + 1 < |s| ==> s[k + 1].pre == if k == 0 then null else s[k - 1]
      requires 0 < k ==> s[k - 1].next == if k == |s| - 1 then null else s[k + 1]
      requires count == |s| - 1
      requires first == if k > 0 then s[0] else if |s| > 1 then s[1] else null
      requires last == if k < |s| - 1 then s[|s| - 1] else if |s| > 1 then s[|s| - 2] else null
      ensures Valid()
    {
      CutDistinct(s, k);
      forall i | 0 <= i < |nodes|
        ensures nodes[i].pre == if i == 0 then null else nodes[i - 1]
        ensures nodes[i].next == if i == |nodes| - 1 then null else nodes[i + 1]
        ensures nodes[i].home == this
      {
        if i < k {
          assert nodes[i] == s[i];
        } else {
          assert nodes[i] == s[i + 1];
        }
      }
    }

    /** Links of this list are on no other list. */
    twostate lemma OtherKept(new k: nat, node: ListNode, new prev: ListNode?, new succ: ListNode?, new l: List)
      requires old(Valid()) && k < |old(nodes)| && node == old(nodes)[k]
      requires prev == old(node.pre) && succ == old(node.next)
      requires l != this && old(allocated(l)) && old(l.Valid()) && unchanged(l)
      requires forall o: ListNode :: old(allocated(o)) && o != node && o != prev && o != succ ==>
                 o.pre == old(o.pre) && o.next == old(o.next) && o.home == old(o.home)
      ensures l.Valid() && l.nodes == old(l.nodes)
    {
      forall i | 0 <= i < |l.nodes|
        ensures l.nodes[i].pre == old(l.nodes[i].pre) && l.nodes[i].next == old(l.nodes[i].next) && l.nodes[i].home == l
      {
        var o := l.nodes[i];
        assert old(o.home) == l;
        assert 0 < k ==> old(nodes[k - 1].home) == this;
        assert k < |old(nodes)| - 1 ==> old(nodes[k + 1].home) == this;
      }
    }

    /** Following `next` from `first`, or `pre` from `last`, the two directions mirror each other. */
    lemma LinksMirror(k: nat)
      requires Valid() && k < |nodes|
      ensures nodes[k].next != null ==> nodes[k].next.pre == nodes[k]
      ensures nodes[k].pre != null ==> nodes[k].pre.next == nodes[k]
      ensures nodes[k].next == null <==> nodes[k] == last
      ensures nodes[k].pre == null <==> nodes[k] == first
    {
      if k + 1 < |nodes| { assert nodes[k + 1].pre == nodes[k]; }
      if 0 < k { assert nodes[k - 1].next == nodes[k]; }
    }
  }
}
