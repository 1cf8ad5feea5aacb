/** Reference-counted objects that carry their own list links.  `Application`, `Rule` and `SocketCookie`
    are objects of this kind: each has the fields `prev` and `next`, and the tables keep a head pointer. */
module IntrusiveList {
  import opened Common
  import opened References

  class Node<T> {
    var value: T
    var references: int
    var prev: Node?<T>
    var next: Node?<T>
    ghost var freed: bool

    /** `new` zeroes the fields; some classes then store an initial count. */
    constructor (value: T, references: int)
      ensures this.value == value && this.references == references
      ensures prev == null && next == null && !freed
    {
      this.value, this.references := value, references;
      prev, next := null, null;
      freed := false;
    }

    /** `SimpleBase::Retain` answers the count before. */
    method Retain() returns (before: int)
      requires !freed
      modifies this`references
      ensures before == old(references) && references == old(references) + 1
    {
      before := references;
      references := references + 1;
    }

    /** `SimpleBase::Release` answers the count after, and deletes the object when that is 0. */
    method Release() returns (left: int)
      requires !freed
      modifies this`references, this`freed
      ensures left == references == old(references) - 1
      ensures freed <==> left == 0
    {
      references := references - 1;
      left := references;
      if left == 0 {
        freed := true;
      }
    }
  }

  function AsOption<T>(n: Node?<T>): Option<Node<T>> {
    if n == null then None else Some(n)
  }

  /** The fields of the known objects agree with the abstract counts. */
  ghost predicate Counted<T>(c: Counts<Node<T>>)
    reads c.refs.Keys`references, c.refs.Keys`freed
  {
    forall n :: n in c.refs ==> n.references == c.refs[n] && n.freed == (n in c.freed)
  }

  /** `head` leads through `next` to exactly `nodes`, in order.  A node links back to its predecessor,
      except that the nodes in `cut` have a null `prev` although they are not the first. */
  ghost predicate Linked<T>(nodes: seq<Node<T>>, cut: set<Node<T>>, head: Node?<T>)
    reads nodes`prev, nodes`next
  {
    && Distinct(nodes)
    && head == (if nodes == [] then null else nodes[0])
    && (nodes != [] ==> nodes[0] !in cut)
    && (forall i {:trigger nodes[i].next} :: 0 <= i < |nodes| ==>
          nodes[i].next == if i + 1 < |nodes| then nodes[i + 1] else null)
    && (forall i {:trigger nodes[i].prev} :: 0 <= i < |nodes| ==>
          nodes[i].prev == if i == 0 || nodes[i] in cut then null else nodes[i - 1])
  }

  /** What taking the i-th node out leaves: a node with a null `prev` is taken for the first one, so
      everything in front of it is lost. */
  function Unlinked<T(==)>(nodes: seq<T>, cut: set<T>, i: nat): seq<T>
    requires i < |nodes|
  {
    if i > 0 && nodes[i] in cut then nodes[i + 1..] else RemoveAt(nodes, i)
  }

  /** Taking a node out repairs the back link of its successor. */
  function Mended<T(==)>(nodes: seq<T>, cut: set<T>, i: nat): set<T>
    requires i < |nodes|
  {
    cut - {nodes[i]} - (if i + 1 < |nodes| then {nodes[i + 1]} else {})
  }

  /** What inserting in front of the i-th node leaves, with the same loss. */
  function InsertedBefore<T(==)>(nodes: seq<T>, cut: set<T>, i: nat, node: T): seq<T>
    requires i < |nodes|
  {
    if i > 0 && nodes[i] in cut then [node] + nodes[i..] else nodes[..i] + [node] + nodes[i..]
  }

  method PushFront<T>(head: Node?<T>, node: Node<T>, ghost nodes: seq<Node<T>>, ghost cut: set<Node<T>>)
    returns (h: Node<T>)
    requires Linked(nodes, cut, head) && node !in nodes && node.prev == null && node !in cut
    modifies node`next, nodes`prev
    ensures h == node && Linked([node] + nodes, cut, h)
  {
    node.next := head;
    h := node;
    if node.next != null {
      node.next.prev := node;
    }
  }

  method Unlink<T>(head: Node?<T>, node: Node<T>, ghost nodes: seq<Node<T>>, ghost cut: set<Node<T>>, ghost i: nat)
    returns (h: Node?<T>)
    requires Linked(nodes, cut, head) && i < |nodes| && node == nodes[i]
    modifies nodes`prev, nodes`next
    ensures Linked(Unlinked(nodes, cut, i), Mended(nodes, cut, i), h)
    ensures node.prev == old(node.prev) && node.next == old(node.next)
  {
    h := head;
    UnlinkedAt(nodes, cut, i);
    assert node.next != null ==> node.next == nodes[i + 1];
    if node.prev != null {
      assert node.prev == nodes[i - 1];
      node.prev.next := node.next;
    } else {
      h := node.next;
    }
    if node.next != null {
      node.next.prev := node.prev;
    }
  }

  /** Where the nodes are after a removal: those in front of `k` in place, the rest one after the other. */
  lemma UnlinkedAt<T>(nodes: seq<T>, cut: set<T>, i: nat)
    requires i < |nodes| && Distinct(nodes)
    ensures var k := if i > 0 && nodes[i] in cut then 0 else i;
      var r := Unlinked(nodes, cut, i);
      && |r| == |nodes| - 1 - (i - k)
      && (forall j :: 0 <= j < k ==> r[j] == nodes[j])
      && (forall j :: k <= j < |r| ==> r[j] == nodes[j + 1 + i - k])
      && Distinct(r) && nodes[i] !in r
  {}

  /** Taking a node out and clearing its own links. */
  method UnlinkAndClear<T>(head: Node?<T>, node: Node<T>, ghost nodes: seq<Node<T>>, ghost cut: set<Node<T>>,
                           ghost i: nat)
    returns (h: Node?<T>)
    requires Linked(nodes, cut, head) && i < |nodes| && node == nodes[i]
    modifies nodes`prev, nodes`next
    ensures Linked(Unlinked(nodes, cut, i), Mended(nodes, cut, i), h)
    ensures node.prev == null && node.next == null
  {
    h := Unlink(head, node, nodes, cut, i);
    UnlinkedAt(nodes, cut, i);
    node.prev, node.next := null, null;
  }

  method InsertBefore<T>(head: Node?<T>, node: Node<T>, current: Node<T>,
                         ghost nodes: seq<Node<T>>, ghost cut: set<Node<T>>, ghost i: nat)
    returns (h: Node?<T>)
    requires Linked(nodes, cut, head) && i < |nodes| && current == nodes[i]
    requires node !in nodes && node !in cut
    modifies node`prev, node`next, nodes`prev, nodes`next
    ensures Linked(InsertedBefore(nodes, cut, i, node), cut - {current}, h)
  {
    h := head;
    node.next := current;
    node.prev := current.prev;
    current.prev := node;
    if node.prev != null {
      node.prev.next := node;
    } else {
      h := node;
    }
    ghost var r := InsertedBefore(nodes, cut, i, node);
    ghost var k := if i > 0 && current in cut then 0 else i;
    InsertedAt(nodes, cut, i, node);
    forall j | 0 <= j < |r|
      ensures r[j].next == if j + 1 < |r| then r[j + 1] else null
    {
      if j > k { assert r[j] == nodes[j - 1 + i - k]; }
    }
    forall j | 0 <= j < |r|
      ensures r[j].prev == if j == 0 || r[j] in cut - {current} then null else r[j - 1]
    {
      if j > k + 1 { assert r[j] == nodes[j - 1 + i - k]; }
    }
  }

  /** Where the nodes are after an insertion: the new one at `k`, the old ones around it. */
  lemma InsertedAt<T>(nodes: seq<T>, cut: set<T>, i: nat, node: T)
    requires i < |nodes| && Distinct(nodes) && node !in nodes
    ensures var k := if i > 0 && nodes[i] in cut then 0 else i;
      var r := InsertedBefore(nodes, cut, i, node);
      && |r| == |nodes| + 1 - (i - k) && r[k] == node
      && (forall j :: 0 <= j < k ==> r[j] == nodes[j])
      && (forall j :: k < j < |r| ==> r[j] == nodes[j - 1 + i - k])
      && Distinct(r)
  {}

  /** The node becomes the last one; `linkBack` tells whether its own `prev` is set too. */
  method Append<T>(head: Node?<T>, last: Node?<T>, node: Node<T>, linkBack: bool,
                   ghost nodes: seq<Node<T>>, ghost cut: set<Node<T>>)
    returns (h: Node<T>)
    requires Linked(nodes, cut, head) && last == (if nodes == [] then null else nodes[|nodes| - 1])
    requires node !in nodes && node !in cut && node.prev == null && node.next == null
    modifies node`prev, nodes`next
    ensures Linked(nodes + [node], if linkBack || nodes == [] then cut else cut + {node}, h)
  {
    if last != null {
      last.next := node;
      h := head;
    } else {
      h := node;
    }
    if linkBack {
      node.prev := last;
    }
  }
}
