/** Singly linked first-in-first-out chains: the message queue of a client and the deferred data of a socket
    are both a head pointer, a tail pointer and nodes linked through `next`. */
module Chains {
  import opened Common

  class Link<T> {
    const value: T
    /** The object whose chain the node was made for. */
    ghost const owner: object
    var next: Link?<T>

    constructor (value: T, ghost owner: object)
      ensures this.value == value && this.owner == owner && next == null
    {
      this.value, this.owner := value, owner;
      next := null;
    }
  }

  ghost predicate Chained<T>(nodes: seq<Link<T>>, head: Link?<T>)
    reads nodes`next
  {
    && Distinct(nodes)
    && head == (if nodes == [] then null else nodes[0])
    && (forall i {:trigger nodes[i].next} :: 0 <= i < |nodes| ==>
          nodes[i].next == if i + 1 < |nodes| then nodes[i + 1] else null)
  }

  ghost predicate Tail<T>(nodes: seq<Link<T>>, last: Link?<T>) {
    last == if nodes == [] then null else nodes[|nodes| - 1]
  }

  ghost function Values<T>(nodes: seq<Link<T>>): (r: seq<T>)
    ensures |r| == |nodes|
    ensures forall i :: 0 <= i < |nodes| ==> r[i] == nodes[i].value
  {
    seq(|nodes|, i requires 0 <= i < |nodes| => nodes[i].value)
  }

  method Append<T>(head: Link?<T>, last: Link?<T>, node: Link<T>, ghost nodes: seq<Link<T>>)
    returns (h: Link<T>, l: Link<T>)
    requires Chained(nodes, head) && Tail(nodes, last)
    requires node !in nodes && node.next == null
    modifies (if last == null then {} else {last})`next
    ensures Chained(nodes + [node], h) && Tail(nodes + [node], l)
    ensures Values(nodes + [node]) == Values(nodes) + [node.value]
  {
    if last == null {
      h := node;
    } else {
      h := head;
      last.next := node;
    }
    l := node;
  }
}
