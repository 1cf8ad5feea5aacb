/** A connected client on the heap (Kext/client.h, Kext/client.cpp): its message queue, the batch its send thread
    works through, and the counted messages both refer to.  Proved against `Fanout`. */
module ClientsHeap {
  import opened Common
  import opened References
  import opened Chains
  import opened Messages
  import opened Fanout

  class Message {
    const raw: Raw
    var references: int
    ghost var freed: bool

    /** The `Create...` functions store the count 1. */
    constructor (raw: Raw)
      ensures this.raw == raw && references == 1 && !freed
    {
      this.raw := raw;
      references := 1;
      freed := false;
    }

    method Retain()
      requires !freed
      modifies this`references
      ensures references == old(references) + 1
    {
      references := references + 1;
    }

    method Release()
      requires !freed
      modifies this`references, this`freed
      ensures references == old(references) - 1
      ensures freed <==> references == 0
    {
      references := references - 1;
      if references == 0 {
        freed := true;
      }
    }
  }

  type ClientMessageNode = Link<Message>

  ghost predicate Counted(c: Counts<Message>)
    reads c.refs.Keys`references, c.refs.Keys`freed
  {
    forall m :: m in c.refs ==> m.references == c.refs[m] && m.freed == (m in c.freed)
  }

  /** Every message of the list can be released once for each of its places. */
  ghost predicate Covers(c: Counts<Message>, messages: seq<Message>) {
    && c.Good()
    && (forall m :: m in messages ==> m in c.refs && c.refs[m] >= multiset(messages)[m])
  }

  class Client {
    const unit: int
    var registredMessageClases: Word
    var exitState: bool
    var messageQueueHead: Link?<Message>
    var messageQueueLast: Link?<Message>
    var references: int
    var next: Client?
    /** The local variable of the send thread: the rest of the batch it detached. */
    var node: Link?<Message>

    ghost var Pending: seq<ClientMessageNode>
    ghost var Batch: seq<ClientMessageNode>
    ghost var S: ClientState<Message>

    ghost predicate Coupled()
      reads this`registredMessageClases, this`exitState, this`messageQueueHead, this`messageQueueLast,
            this`references, this`node, this`Pending, this`Batch, this`S, Pending`next, Batch`next
    {
      && Chained(Pending, messageQueueHead) && Tail(Pending, messageQueueLast)
      && Chained(Batch, node)
      && Values(Pending) == S.pending && Values(Batch) == S.batch
      && (forall n :: n in Pending ==> n.owner == this)
      && (forall n :: n in Batch ==> n.owner == this && n !in Pending)
      && S.mask == registredMessageClases
      && S.exit == exitState
      && S.references == references
    }

    /** `InitWithClient`; the order of the thread's `Retain` and the store of the count is an input. */
    constructor (unit: int, form: Form, retainFirst: bool)
      ensures Coupled() && S == Connected(form, retainFirst) && this.unit == unit && next == null
    {
      this.unit := unit;
      registredMessageClases := INITIAL_CLASSES;
      exitState := false;
      messageQueueHead, messageQueueLast, node, next := null, null, null, null;
      references := if form == AsWritten then 1 else 2;
      Pending, Batch := [], [];
      S := Connected(form, retainFirst);
    }

    /** The first statement of the send thread, when it comes after the count was stored. */
    method ThreadStart()
      requires Coupled()
      modifies this`S, this`references
      ensures Coupled() && S == Started(old(S))
    {
      references := references + 1;
      S := Started(S);
    }

    /** `Send`: the message is queued exactly when the client is not exiting, wants its class and a node can be
        allocated; the tail pointer is null exactly when the queue is empty. */
    method Send(message: Message, memory: bool, ghost c: Counts<Message>)
      requires Coupled() && Counted(c) && message in c.refs && message !in c.freed
      modifies this`messageQueueHead, this`messageQueueLast, this`Pending, this`S, Pending`next, message`references
      ensures Coupled()
      ensures S == if Accepts(old(S), message.raw.kind, memory) then Enqueue(old(S), message) else old(S)
      ensures Counted(if Accepts(old(S), message.raw.kind, memory) then c.Retain(message) else c)
      ensures forall n :: n in Pending ==> n in old(Pending) || fresh(n)
      ensures messageQueueLast == null <==> S.pending == []
      ensures var taken := !exitState && memory && exists b :: b in message.raw.kind && b in registredMessageClases;
        Values(Pending) == old(Values(Pending)) + if taken then [message] else []
    {
      WantedExactly(message.raw.kind, registredMessageClases);
      if exitState {
        return;
      }
      if !Wanted(message.raw.kind, registredMessageClases) {
        return;
      }
      if !memory {
        return;
      }
      message.Retain();
      Queue(message);
    }

    /** The section under `lockQueue`. */
    method Queue(message: Message)
      requires Coupled()
      modifies this`messageQueueHead, this`messageQueueLast, this`Pending, this`S, Pending`next
      ensures Coupled() && S == Enqueue(old(S), message)
      ensures forall n :: n in Pending ==> n in old(Pending) || fresh(n)
    {
      var added := new Link(message, this);
      AppendNode(added);
    }

    method AppendNode(added: ClientMessageNode)
      requires Coupled() && added !in Pending && added !in Batch && added.next == null && added.owner == this
      modifies this`messageQueueHead, this`messageQueueLast, this`Pending, this`S, Pending`next
      ensures Coupled() && S == Enqueue(old(S), added.value) && Pending == old(Pending) + [added]
    {
      LinkNode(added);
      Pending := Pending + [added];
      S := Enqueue(S, added.value);
    }

    /** The links alone. */
    method LinkNode(added: ClientMessageNode)
      requires Chained(Pending, messageQueueHead) && Tail(Pending, messageQueueLast) && Chained(Batch, node)
      requires added !in Pending && added.next == null && (forall n :: n in Batch ==> n !in Pending)
      modifies this`messageQueueHead, this`messageQueueLast, Pending`next
      ensures Chained(Pending + [added], messageQueueHead) && Tail(Pending + [added], messageQueueLast)
      ensures Values(Pending + [added]) == Values(Pending) + [added.value]
      ensures Chained(Batch, node)
    {
      assert messageQueueLast !in Batch;
      messageQueueHead, messageQueueLast := Append(messageQueueHead, messageQueueLast, added, Pending);
    }

    /** The swap of the send thread: the whole queue becomes its batch and the queue is empty. */
    method DetachQueue()
      requires Coupled() && S.batch == []
      modifies this`messageQueueHead, this`messageQueueLast, this`node, this`Pending, this`Batch, this`S
      ensures Coupled() && S == Detach(old(S))
      ensures messageQueueHead == null && messageQueueLast == null
      ensures Pending == [] && Batch == old(Pending)
    {
      node := messageQueueHead;
      messageQueueHead := null;
      messageQueueLast := null;
      Batch, Pending := Pending, [];
      S := Detach(S);
    }

    /** The attempts to hand the first message over; `continue` as written ends the loop. */
    method TryFirst(form: Form, spaces: seq<nat>, enqueued: bool) returns (handed: bool)
      requires Coupled() && S.batch != [] && |spaces| == 4
      modifies this`S
      ensures Coupled() && S == Try(old(S), Attempt(form, old(S).batch[0].raw.size, spaces, enqueued))
      ensures handed == Attempt(form, old(S).batch[0].raw.size, spaces, enqueued)
    {
      var size := node.value.raw.size;
      handed := false;
      var k := 0;
      var again := true;
      while again
        invariant k <= 3
        invariant forall i :: 0 <= i < k ==> spaces[i] < size
        invariant again ==> !handed
        invariant again && k > 0 ==> form == Corrected
        invariant !again ==> handed == Attempt(form, size, spaces, enqueued)
        decreases if again then 4 - k else 0
      {
        again := false;
        if spaces[k] < size {
          if k < 3 {
            k := k + 1;
            again := form == Corrected;
          }
        } else {
          handed := enqueued;
        }
      }
      S := Try(S, handed);
    }

    /** A subscription command changes the mask. */
    method SetMask(mask: Word)
      requires Coupled()
      modifies this`registredMessageClases, this`S
      ensures Coupled() && S == old(S).(mask := mask)
    {
      registredMessageClases := mask;
      S := S.(mask := mask);
    }

    /** The inner loop is over: the thread goes back to sleep. */
    method Finish()
      requires Coupled() && node == null
      modifies this`S
      ensures Coupled() && S == Fanout.Finish(old(S))
    {
      S := Fanout.Finish(S);
    }

    /** The end of the inner loop: step over the first node and release its message. */
    method PopFirst(ghost c: Counts<Message>)
      requires Coupled() && Counted(c) && S.batch != [] && S.tried.Some?
      requires S.batch[0] in c.refs && S.batch[0] !in c.freed
      modifies this`node, this`Batch, this`S, c.refs.Keys`references, c.refs.Keys`freed
      ensures Coupled() && S == Pop(old(S)) && Counted(c.Release(old(S).batch[0]))
      ensures Batch == old(Batch)[1..]
    {
      var deletedNode := node;
      node := node.next;
      deletedNode.value.Release();
      Batch := Batch[1..];
      S := Pop(S);
    }

    /** `ClearQueue`: release the message of every node. */
    static method ClearQueue(root: Link?<Message>, ghost nodes: seq<ClientMessageNode>, ghost c: Counts<Message>)
      requires Chained(nodes, root) && Counted(c) && Covers(c, Values(nodes))
      modifies c.refs.Keys`references, c.refs.Keys`freed
      ensures Counted(ReleaseAll(c, Values(nodes)))
    {
      var curr := root;
      ghost var rest, left, now := nodes, Values(nodes), c;
      while curr != null
        invariant Chained(rest, curr) && left == Values(rest)
        invariant now.refs.Keys == c.refs.Keys && Counted(now) && Covers(now, left)
        invariant ReleaseAll(now, left) == ReleaseAll(c, Values(nodes))
        decreases |rest|
      {
        ghost var message := curr.value;
        curr := DropNode(curr, rest, now);
        rest, left, now := rest[1..], left[1..], now.Release(message);
      }
    }

    static method DropNode(curr: ClientMessageNode, ghost rest: seq<ClientMessageNode>, ghost c: Counts<Message>)
      returns (root: Link?<Message>)
      requires rest != [] && Chained(rest, curr) && Counted(c) && Covers(c, Values(rest))
      modifies curr.value`references, curr.value`freed
      ensures Chained(rest[1..], root) && Counted(c.Release(curr.value))
      ensures Values(rest[1..]) == Values(rest)[1..]
      ensures Covers(c.Release(curr.value), Values(rest)[1..])
    {
      CoversTail(c, Values(rest));
      root := curr.next;
      curr.value.Release();
    }

    /** `exitAndClearQueue`: the rest of the batch goes, and the thread gives its reference back. */
    method ClearBatchAndLeave(ghost c: Counts<Message>)
      requires Coupled() && Counted(c) && S.batch != [] && Covers(c, S.batch)
      modifies this`node, this`Batch, this`S, this`references, c.refs.Keys`references, c.refs.Keys`freed
      ensures Coupled() && S == LeaveThread(ClearBatch(old(S))) && Counted(ReleaseAll(c, old(S).batch))
      ensures Batch == []
    {
      ClearQueue(node, Batch, c);
      ForgetBatch();
      Leave();
    }

    method ForgetBatch()
      requires Coupled() && S.batch != []
      modifies this`node, this`Batch, this`S
      ensures Coupled() && S == ClearBatch(old(S)) && Batch == []
    {
      node := null;
      Batch := [];
      S := ClearBatch(S);
    }

    /** `exit`: the thread gives its reference back. */
    method Leave()
      requires Coupled()
      modifies this`S, this`references
      ensures Coupled() && S == LeaveThread(old(S))
    {
      references := references - 1;
      S := LeaveThread(S);
    }

    /** The client's part of `KcDisconnect`: `CloseSignal` and `Release`. */
    method CloseAndRelease()
      requires Coupled()
      modifies this`S, this`exitState, this`references
      ensures Coupled() && S == Fanout.Unlist(old(S))
    {
      exitState := true;
      references := references - 1;
      S := Fanout.Unlist(S);
    }

    /** `Free`: the queue is detached and cleared. */
    method Free(ghost c: Counts<Message>)
      requires Coupled() && Counted(c) && Covers(c, S.pending)
      modifies this`messageQueueHead, this`messageQueueLast, this`Pending, this`S
      modifies c.refs.Keys`references, c.refs.Keys`freed
      ensures Coupled() && S == ClearPending(old(S)) && Counted(ReleaseAll(c, old(S).pending))
      ensures Pending == []
    {
      ghost var nodes := Pending;
      var queued := TakeQueue();
      ClearQueue(queued, nodes, c);
    }

    /** `Release` of the thread's reference, which deletes the client when it was the last. */
    method Exit(ghost c: Counts<Message>)
      requires Coupled() && Counted(c) && Covers(c, S.pending)
      modifies this`S, this`references, this`messageQueueHead, this`messageQueueLast, this`Pending
      modifies c.refs.Keys`references, c.refs.Keys`freed
      ensures Coupled() && S == Buried(LeaveThread(old(S))) && Counted(ReleaseAll(c, Remains(LeaveThread(old(S)))))
      ensures Batch == old(Batch) && forall n :: n in Pending ==> n in old(Pending)
    {
      Leave();
      if references == 0 {
        Free(c);
      }
    }

    /** The exit with messages left in the batch. */
    method ExitClearing(ghost c: Counts<Message>)
      requires Coupled() && Counted(c) && S.batch != [] && Covers(c, S.batch + S.pending)
      modifies this`node, this`Batch, this`S, this`references
      modifies this`messageQueueHead, this`messageQueueLast, this`Pending
      modifies c.refs.Keys`references, c.refs.Keys`freed
      ensures Coupled() && S == Buried(LeaveThread(ClearBatch(old(S))))
      ensures Counted(ReleaseAll(c, old(S).batch + Remains(LeaveThread(ClearBatch(old(S))))))
      ensures Batch == [] && forall n :: n in Pending ==> n in old(Pending)
    {
      CoversParts(c, S.batch, S.pending);
      ReleaseAllConcat(c, S.batch, S.pending);
      ReleaseAllConcat(c, S.batch, []);
      ghost var k := ReleaseAll(c, S.batch);
      ClearBatchAndLeave(c);
      if references == 0 {
        Free(k);
      }
    }

    /** `CloseSignal` and the `Release` of the list's reference. */
    method CloseAndBury(ghost c: Counts<Message>)
      requires Coupled() && Counted(c) && Covers(c, S.pending)
      modifies this`S, this`exitState, this`references, this`messageQueueHead, this`messageQueueLast, this`Pending
      modifies c.refs.Keys`references, c.refs.Keys`freed
      ensures Coupled() && S == Buried(Fanout.Unlist(old(S)))
      ensures Counted(ReleaseAll(c, Remains(Fanout.Unlist(old(S)))))
      ensures Batch == old(Batch) && forall n :: n in Pending ==> n in old(Pending)
    {
      CloseAndRelease();
      if references == 0 {
        Free(c);
      }
    }

    method TakeQueue() returns (queued: Link?<Message>)
      requires Coupled()
      modifies this`messageQueueHead, this`messageQueueLast, this`Pending, this`S
      ensures Coupled() && S == ClearPending(old(S)) && Pending == []
      ensures queued == old(messageQueueHead)
    {
      queued := messageQueueHead;
      messageQueueHead := null;
      messageQueueLast := null;
      Pending := [];
      S := ClearPending(S);
    }
  }

  lemma CoversTail(c: Counts<Message>, messages: seq<Message>)
    requires Covers(c, messages) && messages != []
    ensures messages[0] !in c.freed && Covers(c.Release(messages[0]), messages[1..])
  {
    assert messages == [messages[0]] + messages[1..];
    assert multiset(messages) == multiset{messages[0]} + multiset(messages[1..]);
    ReleaseGood(c, messages[0]);
  }

  /** What covers two lists covers the first, and the second after the first is released. */
  lemma CoversParts(c: Counts<Message>, first: seq<Message>, second: seq<Message>)
    requires Covers(c, first + second)
    ensures forall m :: m in first + second ==> m in c.refs
    ensures Covers(c, first) && Covers(c, second) && Covers(ReleaseAll(c, first), second)
  {
    assert multiset(first + second) == multiset(first) + multiset(second);
    assert forall m :: m in first || m in second ==> m in first + second;
    assert forall m :: m in first ==> c.refs[m] >= multiset(first + second)[m];
    assert forall m :: m in second ==> c.refs[m] >= multiset(first + second)[m];
    ReleaseAllGood(c, first);
  }
}
