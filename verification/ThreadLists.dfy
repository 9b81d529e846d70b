/** The list of connection threads: `add_thread_to_list` and the drain in `shutdown_operations`. */
module ThreadLists {

  /** A node in allocated memory. Its fields are read through members that require it to be live:
      not yet freed. */
  class Node {
    const handle: nat
    var next: Node?
    ghost var live: bool

    constructor (handle: nat, next: Node?)
      ensures this.handle == handle && this.next == next && live
    {
      this.handle, this.next, live := handle, next, true;
    }

    function Handle(): nat
      requires live
      reads this
    {
      handle
    }

    function Next(): Node?
      requires live
      reads this
    {
      next
    }
  }

  function Handles(nodes: seq<Node>): (h: seq<nat>)
    ensures |h| == |nodes| && forall k | 0 <= k < |nodes| :: h[k] == nodes[k].handle
  {
    seq(|nodes|, k requires 0 <= k < |nodes| => nodes[k].handle)
  }

  /** The nodes are linked in this order, each once and none freed, and the last one ends the chain. */
  ghost predicate Chain(first: Node?, nodes: seq<Node>)
    reads nodes
  {
    if nodes == [] then first == null
    else first == nodes[0] && first.live && first !in nodes[1..] && Chain(nodes[0].next, nodes[1..])
  }

  /** What the shutdown does outside the list: which threads it has joined, which nodes it has freed. */
  class Process {
    var joined: seq<nat>
    ghost var freed: seq<Node>

    constructor ()
      ensures joined == [] && freed == []
    {
      joined, freed := [], [];
    }

    method Join(handle: nat)
      modifies this`joined
      ensures joined == old(joined) + [handle]
    {
      joined := joined + [handle];
    }

    /** `free`: nothing is known of what the node holds afterwards, and it cannot be freed again. */
    method Free(node: Node)
      requires node.live
      modifies this`freed, node
      ensures !node.live && freed == old(freed) + [node]
    {
      node.live, node.next := false, null;
      freed := freed + [node];
    }
  }

  class ThreadList {
    var first: Node?
    ghost var nodes: seq<Node>

    ghost predicate Valid()
      reads this, nodes
    {
      Chain(first, nodes)
    }

    constructor ()
      ensures Valid() && nodes == []
    {
      first, nodes := null, [];
    }

    /** `add_thread_to_list`: a new node in front. */
    method Add(handle: nat)
      requires Valid()
      modifies this
      ensures Valid() && |nodes| == |old(nodes)| + 1 && nodes[1..] == old(nodes) && fresh(nodes[0])
      ensures Handles(nodes) == [handle] + Handles(old(nodes))
    {
      ghost var rest := nodes;
      var node := new Node(handle, first);
      first := node;
      nodes := [node] + nodes;
      assert nodes[1..] == rest;
    }

    /** `SLIST_REMOVE`: unlink the node; the node itself keeps its link. */
    method Remove(node: Node)
      requires Valid() && nodes != [] && node == nodes[0]
      modifies this
      ensures Valid() && nodes == old(nodes)[1..] && first == node.next
    {
      first := node.Next();
      nodes := nodes[1..];
    }

    /** The loop of `shutdown_operations`: join, unlink, step on, free. Every thread is joined once and
        every node freed once, in the order of the list, and no node is read after that. */
    method JoinAll(process: Process)
      requires Valid()
      modifies this, process, nodes
      ensures Valid() && nodes == [] && first == null
      ensures process.joined == old(process.joined) + Handles(old(nodes))
      ensures process.freed == old(process.freed) + old(nodes)
      ensures forall n | n in old(nodes) :: !n.live
    {
      ghost var all, done := nodes, 0;
      var node := first;
      while node != null
        invariant Valid() && node == first
        invariant 0 <= done <= |all| && nodes == all[done..]
        invariant process.joined == old(process.joined) + Handles(all[..done])
        invariant process.freed == old(process.freed) + all[..done]
        invariant forall k | 0 <= k < done :: !all[k].live && all[k] !in nodes
        decreases |nodes|
      {
        NextNode(all, done);
        process.Join(node.Handle());
        Remove(node);
        var tmp := node;
        node := node.Next();
        process.Free(tmp);
        done := done + 1;
      }
      assert all[..done] == all;
    }
  }

  lemma {:induction false} NextNode(all: seq<Node>, done: nat)
    requires done < |all|
    ensures all[done..][0] == all[done] && all[done..][1..] == all[done + 1..]
    ensures all[..done + 1] == all[..done] + [all[done]]
    ensures Handles(all[..done + 1]) == Handles(all[..done]) + [all[done].handle]
  {
  }
}
