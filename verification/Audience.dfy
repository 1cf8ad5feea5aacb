/** All clients and messages on the heap: the linked list of clients, each client's queue and batch, and the counts the
    messages share (Kext/client.cpp, Kext/firewall.cpp:681-774).  Every section is proved to be a step of `Fanout`. */
module AudienceHeap {
  import opened Common
  import opened References
  import opened Messages
  import opened ClientsHeap
  import opened ClientListHeap
  import F = Fanout

  /** A client's object represents its abstract state, with nodes from a given set. */
  ghost predicate Represents(c: Client, s: F.ClientState<Message>, nodes: set<ClientMessageNode>)
    reads c, nodes`next
  {
    && (forall n :: n in c.Pending + c.Batch ==> n in nodes)
    && c.Coupled() && c.S == s
  }

  ghost predicate Represent(cs: set<Client>, clients: map<Client, F.ClientState<Message>>,
                            nodes: set<ClientMessageNode>)
    reads cs, nodes`next
  {
    && cs <= clients.Keys
    && forall c {:trigger Represents(c, clients[c], nodes)} :: c in cs ==> Represents(c, clients[c], nodes)
  }

  ghost predicate Contents(raw: map<Message, Raw>) {
    forall m :: m in raw ==> m.raw == raw[m]
  }

  /** None of the fields of a client's own changed; the link to the next client is the list's. */
  twostate predicate Same(d: Client)
    reads d
  {
    && d.registredMessageClases == old(d.registredMessageClases) && d.exitState == old(d.exitState)
    && d.messageQueueHead == old(d.messageQueueHead) && d.messageQueueLast == old(d.messageQueueLast)
    && d.references == old(d.references) && d.node == old(d.node)
    && d.Pending == old(d.Pending) && d.Batch == old(d.Batch) && d.S == old(d.S)
  }

  /** A client whose own fields and nodes have not changed is represented as before. */
  twostate lemma Kept(d: Client)
    requires old(d.Coupled()) && Same(d)
    requires forall n :: n in d.Pending ==> n.next == old(n.next)
    requires forall n :: n in d.Batch ==> n.next == old(n.next)
    ensures d.Coupled() && d.S == old(d.S)
  {}

  /** After a change of one client. */
  lemma Rebuild(clients: map<Client, F.ClientState<Message>>, c: Client, nodes: set<ClientMessageNode>)
    requires Represent(clients.Keys - {c}, clients, nodes) && c in clients && Represents(c, c.S, nodes)
    ensures var u := clients[c := c.S]; Represent(u.Keys, u, nodes)
  {}

  /** The links of the list have not changed. */
  twostate lemma ListKept(list: ClientList)
    requires old(list.Coupled()) && unchanged(list)
    requires forall c :: c in list.Listed ==> c.next == old(c.next)
    ensures list.Coupled()
  {}

  /** The references the queues of a client have on their messages can be given back. */
  lemma QueueCovers(w: F.World<Client, Message>, c: Client)
    requires F.Inv(w) && c in w.clients
    ensures var s := w.clients[c];
      && Covers(w.counts, s.batch + s.pending) && Covers(w.counts, s.batch) && Covers(w.counts, s.pending)
      && forall m :: m in s.batch ==> m in w.counts.refs && m !in w.counts.freed
  {
    F.Loaded(w, c);
    var s := w.clients[c];
    CoversParts(w.counts, s.batch, s.pending);
    forall m | m in s.batch
      ensures m in w.counts.refs && m !in w.counts.freed
    {
      assert m in F.Queue(s);
    }
  }

  lemma TriedIs(form: Form, w: F.World<Client, Message>, c: Client, spaces: seq<nat>, enqueued: bool)
    requires F.Inv(w) && Contents(w.raw) && F.Enabled(w, F.TryStep(c, spaces, enqueued))
    ensures var s := w.clients[c];
      F.Tried(form, w, c, spaces, enqueued)
        == F.With(w, c, F.Try(s, F.Attempt(form, s.batch[0].raw.size, spaces, enqueued)))
  {
    QueueCovers(w, c);
  }

  /** What a thread that leaves, and a client that is closed, give back. */
  lemma ExitCovers(w: F.World<Client, Message>, c: Client)
    requires F.Inv(w) && c in w.clients
    ensures var s := w.clients[c];
      && Covers(w.counts, s.pending)
      && Covers(w.counts, F.Remains(F.LeaveThread(s))) && Covers(w.counts, F.Remains(F.Unlist(s)))
  {
    QueueCovers(w, c);
  }

  lemma ClearCovers(w: F.World<Client, Message>, c: Client)
    requires F.Inv(w) && c in w.clients && w.clients[c].batch != []
    ensures var s := w.clients[c];
      && Covers(w.counts, s.batch + s.pending)
      && Covers(w.counts, s.batch + F.Remains(F.LeaveThread(F.ClearBatch(s))))
  {
    QueueCovers(w, c);
    assert w.clients[c].batch + [] == w.clients[c].batch;
  }

  /** The sections, with what the kernel answers inside them. */
  datatype Request =
    | MakeMessage(raw: Raw)
    | SendAll(m: Message, starved: set<Client>)
    | SendTo(c: Client, m: Message, memory: bool)
    | GiveBack(m: Message)
    | Join(unit: int, retainFirst: bool)
    | Part(c: Client)
    | Mask(c: Client, mask: Word)
    | Begin(c: Client)
    | TakeQueue(c: Client)
    | Try(c: Client, spaces: seq<nat>, enqueued: bool)
    | StepOver(c: Client)
    | EndBatch(c: Client)
    | LeaveAwake(c: Client)
    | LeaveClearing(c: Client)

  predicate OfThread(request: Request) {
    request.Begin? || request.TakeQueue? || request.Try? || request.StepOver? || request.EndBatch?
    || request.LeaveAwake? || request.LeaveClearing?
  }

  predicate OfMessage(request: Request) {
    request.MakeMessage? || request.SendAll? || request.SendTo? || request.GiveBack?
  }

  predicate OfList(request: Request) {
    request.Join? || request.Part? || request.Mask?
  }

  /** The step of the machine; for the two requests that make an object it is known only afterwards. */
  ghost function StepOf(request: Request): F.Step<Client, Message>
    requires !request.MakeMessage? && !request.Join?
  {
    match request
    case SendAll(m, starved) => F.BroadcastStep(m, starved)
    case SendTo(c, m, memory) => F.SendStep(c, m, memory)
    case GiveBack(m) => F.DropStep(m)
    case Part(c) => F.DisconnectStep(c)
    case Mask(c, mask) => F.MaskStep(c, mask)
    case Begin(c) => F.StartStep(c)
    case TakeQueue(c) => F.DetachStep(c)
    case Try(c, spaces, enqueued) => F.TryStep(c, spaces, enqueued)
    case StepOver(c) => F.PopStep(c)
    case EndBatch(c) => F.FinishStep(c)
    case LeaveAwake(c) => F.WakeExitStep(c)
    case LeaveClearing(c) => F.ClearExitStep(c)
  }

  class Audience {
    const list: ClientList
    ghost var S: F.World<Client, Message>
    /** Every node ever made. */
    ghost var Nodes: set<ClientMessageNode>

    ghost function Repr(): set<object>
      reads this
    {
      {this, list} + S.clients.Keys + Nodes + S.counts.refs.Keys
    }

    ghost predicate Coupled()
      reads this, list, S.clients.Keys, Nodes`next, S.counts.refs.Keys
    {
      && (forall c :: c in list.Listed ==> c in S.clients)
      && list.Coupled() && list.Listed == S.listed
      && Represent(S.clients.Keys, S.clients, Nodes)
      && Counted(S.counts)
      && Contents(S.raw)
    }

    constructor ()
      ensures Coupled() && S == F.Empty() && fresh(Repr())
    {
      list := new ClientList();
      S := F.Empty();
      Nodes := {};
    }

    /** Everything but one client and the counts of the messages agrees. */
    ghost predicate Rest(c: Client)
      reads this, list, S.clients.Keys, Nodes`next
    {
      && c in S.clients
      && (forall d :: d in list.Listed ==> d in S.clients)
      && list.Coupled()
      && Represent(S.clients.Keys - {c}, S.clients, Nodes)
      && Contents(S.raw)
    }

    /** After a section that changed one client and the counts: the abstract state follows. */
    ghost method Adopt(c: Client, u: F.World<Client, Message>)
      requires Rest(c) && Represents(c, c.S, Nodes)
      requires u.listed == list.Listed && u.clients == S.clients[c := c.S] && u.raw == S.raw && Counted(u.counts)
      modifies this`S
      ensures S == u && Coupled()
    {
      Rebuild(S.clients, c, Nodes);
      S := u;
    }

    /** The nodes of a client that are new become known. */
    ghost method Learn(c: Client)
      requires Rest(c) && c.Coupled() && forall n :: n in c.Batch ==> n in Nodes
      modifies this`Nodes
      ensures Rest(c) && Represents(c, c.S, Nodes)
      ensures forall n :: n in Nodes ==> n in old(Nodes) || n in c.Pending
    {
      Nodes := Nodes + set n | n in c.Pending;
      forall d | d in S.clients.Keys - {c}
        ensures Represents(d, S.clients[d], Nodes)
      {
        assert Represents(d, S.clients[d], old(Nodes));
      }
    }

    /** The thread of a client begins. */
    method Start(c: Client)
      requires Coupled() && c in S.clients
      modifies this, list, S.clients.Keys, Nodes, S.counts.refs.Keys
      ensures Coupled() && Nodes == old(Nodes)
      ensures S == F.With(old(S), c, F.Started(old(S).clients[c]))
    {
      assert Represents(c, S.clients[c], Nodes);
      c.ThreadStart();
      ListKept(list);
      forall d | d in S.clients.Keys - {c}
        ensures Represents(d, S.clients[d], Nodes)
      {
        assert old(Represents(d, S.clients[d], Nodes));
        Kept(d);
      }
      Adopt(c, F.With(S, c, c.S));
    }

    /** A subscription command changes the mask. */
    method SetMask(c: Client, mask: Word)
      requires Coupled() && c in S.clients
      modifies this, list, S.clients.Keys, Nodes, S.counts.refs.Keys
      ensures Coupled() && Nodes == old(Nodes)
      ensures S == F.With(old(S), c, old(S).clients[c].(mask := mask))
    {
      assert Represents(c, S.clients[c], Nodes);
      c.SetMask(mask);
      ListKept(list);
      forall d | d in S.clients.Keys - {c}
        ensures Represents(d, S.clients[d], Nodes)
      {
        assert old(Represents(d, S.clients[d], Nodes));
        Kept(d);
      }
      Adopt(c, F.With(S, c, c.S));
    }

    /** The thread takes the whole queue. */
    method Detach(c: Client)
      requires Coupled() && c in S.clients && S.clients[c].batch == []
      modifies this, list, S.clients.Keys, Nodes, S.counts.refs.Keys
      ensures Coupled() && Nodes == old(Nodes)
      ensures S == F.With(old(S), c, F.Detach(old(S).clients[c]))
    {
      assert Represents(c, S.clients[c], Nodes);
      c.DetachQueue();
      ListKept(list);
      forall d | d in S.clients.Keys - {c}
        ensures Represents(d, S.clients[d], Nodes)
      {
        assert old(Represents(d, S.clients[d], Nodes));
        Kept(d);
      }
      Adopt(c, F.With(S, c, c.S));
    }

    /** The thread tries to hand the first message of its batch over. */
    method TryFirst(form: Form, c: Client, spaces: seq<nat>, enqueued: bool)
      requires Coupled() && c in S.clients && S.clients[c].batch != [] && |spaces| == 4
      modifies this, list, S.clients.Keys, Nodes, S.counts.refs.Keys
      ensures Coupled() && Nodes == old(Nodes)
      ensures var s := old(S).clients[c];
        S == F.With(old(S), c, F.Try(s, F.Attempt(form, s.batch[0].raw.size, spaces, enqueued)))
    {
      assert Represents(c, S.clients[c], Nodes);
      var handed := c.TryFirst(form, spaces, enqueued);
      ListKept(list);
      forall d | d in S.clients.Keys - {c}
        ensures Represents(d, S.clients[d], Nodes)
      {
        assert old(Represents(d, S.clients[d], Nodes));
        Kept(d);
      }
      Adopt(c, F.With(S, c, c.S));
    }

    /** The inner loop of the thread is over. */
    method Finish(c: Client)
      requires Coupled() && c in S.clients && S.clients[c].batch == []
      modifies this, list, S.clients.Keys, Nodes, S.counts.refs.Keys
      ensures Coupled() && Nodes == old(Nodes)
      ensures S == F.With(old(S), c, F.Finish(old(S).clients[c]))
    {
      assert Represents(c, S.clients[c], Nodes);
      c.Finish();
      ListKept(list);
      forall d | d in S.clients.Keys - {c}
        ensures Represents(d, S.clients[d], Nodes)
      {
        assert old(Represents(d, S.clients[d], Nodes));
        Kept(d);
      }
      Adopt(c, F.With(S, c, c.S));
    }

    /** `Client::Send` disturbs no other client. */
    method Deliver(c: Client, m: Message, memory: bool)
      requires Coupled() && c in S.clients && m in S.counts.refs && m !in S.counts.freed
      modifies this, list, S.clients.Keys, Nodes, S.counts.refs.Keys
      ensures Rest(c) && S == old(S) && Nodes == old(Nodes) && list.Listed == S.listed
      ensures c.Coupled()
      ensures var accepted := F.Accepts(S.clients[c], m.raw.kind, memory);
        && c.S == (if accepted then F.Enqueue(S.clients[c], m) else S.clients[c])
        && Counted(if accepted then S.counts.Retain(m) else S.counts)
      ensures c.Batch == old(c.Batch) && forall n :: n in c.Pending ==> n in old(c.Pending) || fresh(n)
    {
      assert Represents(c, S.clients[c], Nodes);
      c.Send(m, memory, S.counts);
      ListKept(list);
      forall d | d in S.clients.Keys - {c}
        ensures Represents(d, S.clients[d], Nodes)
      {
        assert old(Represents(d, S.clients[d], Nodes));
        Kept(d);
      }
    }

    /** `Client::Send`. */
    method SendOne(c: Client, m: Message, memory: bool)
      requires Coupled() && c in S.clients && m in S.raw && m in S.counts.refs && m !in S.counts.freed
      modifies this, list, S.clients.Keys, Nodes, S.counts.refs.Keys
      ensures Coupled() && S == F.SendOne(old(S), c, m, memory)
      ensures forall n :: n in Nodes ==> n in old(Nodes) || fresh(n)
    {
      assert Represents(c, S.clients[c], Nodes);
      Deliver(c, m, memory);
      Learn(c);
      F.SendOneParts(S, c, m, memory);
      Adopt(c, F.SendOne(S, c, m, memory));
    }

    /** The thread is done with the first message of its batch. */
    method Pop(c: Client, ghost released: seq<Message>)
      requires Coupled() && c in S.clients
      requires S.clients[c].tried.Some? && S.clients[c].batch != [] && released == [S.clients[c].batch[0]]
      requires released[0] in S.counts.refs && released[0] !in S.counts.freed
      modifies this, list, S.clients.Keys, Nodes, S.counts.refs.Keys
      ensures Coupled() && Nodes == old(Nodes)
      ensures S == F.Settle(old(S), old(S).listed, c, F.Pop(old(S).clients[c]), released)
    {
      assert Represents(c, S.clients[c], Nodes);
      ReleaseOne(S.counts, released[0]);
      c.PopFirst(S.counts);
      ListKept(list);
      forall d | d in S.clients.Keys - {c}
        ensures Represents(d, S.clients[d], Nodes)
      {
        assert old(Represents(d, S.clients[d], Nodes));
        Kept(d);
      }
      Adopt(c, F.Settle(S, S.listed, c, c.S, released));
    }

    /** The thread leaves right after it woke. */
    method WakeExit(c: Client, ghost released: seq<Message>)
      requires Coupled() && c in S.clients
      requires released == F.Remains(F.LeaveThread(S.clients[c]))
      requires Covers(S.counts, released) && Covers(S.counts, S.clients[c].pending)
      modifies this, list, S.clients.Keys, Nodes, S.counts.refs.Keys
      ensures Coupled() && Nodes == old(Nodes)
      ensures S == F.Settle(old(S), old(S).listed, c, F.Buried(F.LeaveThread(old(S).clients[c])), released)
    {
      assert Represents(c, S.clients[c], Nodes);
      c.Exit(S.counts);
      ListKept(list);
      forall d | d in S.clients.Keys - {c}
        ensures Represents(d, S.clients[d], Nodes)
      {
        assert old(Represents(d, S.clients[d], Nodes));
        Kept(d);
      }
      Adopt(c, F.Settle(S, S.listed, c, c.S, released));
    }

    /** The thread leaves and gives up the rest of its batch. */
    method ClearExit(c: Client, ghost released: seq<Message>)
      requires Coupled() && c in S.clients
      requires S.clients[c].batch != []
      requires released == S.clients[c].batch + F.Remains(F.LeaveThread(F.ClearBatch(S.clients[c])))
      requires Covers(S.counts, released) && Covers(S.counts, S.clients[c].batch + S.clients[c].pending)
      modifies this, list, S.clients.Keys, Nodes, S.counts.refs.Keys
      ensures Coupled() && Nodes == old(Nodes)
      ensures var s := old(S).clients[c];
        S == F.Settle(old(S), old(S).listed, c, F.Buried(F.LeaveThread(F.ClearBatch(s))), released)
    {
      assert Represents(c, S.clients[c], Nodes);
      c.ExitClearing(S.counts);
      ListKept(list);
      forall d | d in S.clients.Keys - {c}
        ensures Represents(d, S.clients[d], Nodes)
      {
        assert old(Represents(d, S.clients[d], Nodes));
        Kept(d);
      }
      Adopt(c, F.Settle(S, S.listed, c, c.S, released));
    }

    /** The links of `KcDisconnect`: no client changes. */
    method Delist(c: Client) returns (found: bool)
      requires Coupled() && c in S.clients
      modifies list, S.clients.Keys`next
      ensures Rest(c) && Represents(c, S.clients[c], Nodes) && Counted(S.counts)
      ensures found == (c in S.listed)
      ensures list.Listed == if found then RemoveAt(S.listed, IndexOf(S.listed, c)) else S.listed
    {
      assert Represents(c, S.clients[c], Nodes);
      found := list.Remove(c);
      assert Counted(S.counts);
      forall d | d in S.clients.Keys
        ensures Represents(d, S.clients[d], Nodes)
      {
        assert old(Represents(d, S.clients[d], Nodes));
        Kept(d);
      }
    }

    /** `CloseSignal` and `Release` disturb no other client. */
    method Dismiss(c: Client, ghost released: seq<Message>)
      requires Rest(c) && Represents(c, S.clients[c], Nodes) && Counted(S.counts)
      requires released == F.Remains(F.Unlist(S.clients[c]))
      requires Covers(S.counts, released) && Covers(S.counts, S.clients[c].pending)
      modifies c`S, c`exitState, c`references, c`messageQueueHead, c`messageQueueLast, c`Pending
      modifies S.counts.refs.Keys`references, S.counts.refs.Keys`freed
      ensures Rest(c) && Represents(c, F.Buried(F.Unlist(S.clients[c])), Nodes)
      ensures Counted(ReleaseAll(S.counts, released))
    {
      c.CloseAndBury(S.counts);
      ListKept(list);
      forall d | d in S.clients.Keys - {c}
        ensures Represents(d, S.clients[d], Nodes)
      {
        assert old(Represents(d, S.clients[d], Nodes));
        Kept(d);
      }
    }

    /** The rest of `KcDisconnect` for a client that has left the list. */
    method Bury(c: Client, ghost released: seq<Message>)
      requires Rest(c) && Represents(c, S.clients[c], Nodes) && Counted(S.counts)
      requires released == F.Remains(F.Unlist(S.clients[c]))
      requires Covers(S.counts, released) && Covers(S.counts, S.clients[c].pending)
      modifies this`S, S.clients.Keys, S.counts.refs.Keys
      ensures Coupled() && S == F.Settle(old(S), list.Listed, c, F.Buried(F.Unlist(old(S).clients[c])), released)
    {
      Dismiss(c, released);
      Adopt(c, F.Settle(S, list.Listed, c, c.S, released));
    }

    /** `KcDisconnect`; a client that is not in the list is left as it is. */
    method Disconnect(c: Client, ghost released: seq<Message>) returns (found: bool)
      requires Coupled() && c in S.clients && (c in S.listed ==> released == F.Remains(F.Unlist(S.clients[c])))
      requires c in S.listed ==> Covers(S.counts, released) && Covers(S.counts, S.clients[c].pending)
      modifies this, list, S.clients.Keys, Nodes, S.counts.refs.Keys
      ensures Coupled() && Nodes == old(Nodes) && found == (c in old(S).listed)
      ensures found ==> S == F.Settle(old(S), RemoveAt(old(S).listed, IndexOf(old(S).listed, c)), c,
                                      F.Buried(F.Unlist(old(S).clients[c])), released)
      ensures !found ==> S == old(S)
    {
      found := Delist(c);
      if found {
        Bury(c, released);
      } else {
        Adopt(c, S);
      }
    }

    /** A new message, held by its creator. */
    method Create(raw: Raw) returns (m: Message)
      requires Coupled()
      modifies this`S
      ensures Coupled() && fresh(m) && m.raw == raw && Nodes == old(Nodes)
      ensures m !in old(S).counts.refs && S == F.Created(old(S), m, raw)
    {
      m := new Message(raw);
      assert m !in S.counts.refs;
      S := F.Created(S, m, raw);
    }

    /** The creator gives its message back. */
    method Release(m: Message)
      requires Coupled() && m in S.counts.refs && m !in S.counts.freed
      modifies this`S, m`references, m`freed
      ensures Coupled() && S == F.GivenBack(old(S), m)
    {
      m.Release();
      S := F.GivenBack(S, m);
    }

    /** The abstract state learns of a new client. */
    ghost method Welcome(c: Client, form: Form, retainFirst: bool)
      requires c !in S.clients && c.Coupled() && c.Pending == [] && c.Batch == []
      requires c.S == F.Connected(form, retainFirst) && list.Coupled() && list.Listed == [c] + S.listed
      requires (forall d :: d in S.listed ==> d in S.clients)
      requires Represent(S.clients.Keys, S.clients, Nodes) && Contents(S.raw) && Counted(S.counts)
      modifies this`S
      ensures Coupled() && S == F.Joined(form, old(S), c, retainFirst)
    {
      Rebuild(S.clients[c := c.S], c, Nodes);
      S := F.Joined(form, S, c, retainFirst);
    }

    /** `KcConnect`. */
    method Connect(unit: int, form: Form, retainFirst: bool) returns (c: Client)
      requires Coupled()
      modifies this`S, list
      ensures Coupled() && fresh(c) && c.unit == unit
      ensures c !in old(S).clients && S == F.Joined(form, old(S), c, retainFirst)
    {
      c := new Client(unit, form, retainFirst);
      list.Push(c);
      forall d | d in S.clients.Keys
        ensures Represents(d, S.clients[d], Nodes)
      {
        assert old(Represents(d, S.clients[d], Nodes));
        Kept(d);
      }
      Welcome(c, form, retainFirst);
    }

    /** `Firewall::Send`: the loop over the list; `starved` are the clients no node can be made for. */
    method Broadcast(m: Message, starved: set<Client>)
      requires Coupled() && m in S.raw && m in S.counts.refs && m !in S.counts.freed
      modifies this, list, S.clients.Keys, Nodes, S.counts.refs.Keys
      ensures Coupled() && S == F.SendAll(old(S), old(S).listed, m, starved)
      ensures forall n :: n in Nodes ==> n in old(Nodes) || fresh(n)
    {
      var c := list.clients;
      ghost var listed, goal, i := S.listed, F.SendAll(S, S.listed, m, starved), 0;
      assert listed[0..] == listed;
      while c != null
        invariant Coupled() && Reaches(m, listed) && i <= |listed|
        invariant S.clients.Keys == old(S.clients.Keys) && S.counts.refs.Keys == old(S.counts.refs.Keys)
        invariant c == At(listed, i)
        invariant F.SendAll(S, listed[i..], m, starved) == goal
        invariant forall n :: n in Nodes ==> n in old(Nodes) || fresh(n)
        decreases |listed| - i
      {
        c := SendNext(c, m, c !in starved, listed, i, starved);
        i := i + 1;
      }
      assert listed[i..] == [];
    }

    /** One iteration. */
    method SendNext(c: Client, m: Message, memory: bool, ghost listed: seq<Client>, ghost i: nat,
                    ghost starved: set<Client>)
      returns (next: Client?)
      requires Coupled() && Reaches(m, listed) && i < |listed| && c == listed[i] && memory == (c !in starved)
      modifies this, list, S.clients.Keys, Nodes, S.counts.refs.Keys
      ensures Coupled() && Reaches(m, listed) && next == At(listed, i + 1)
      ensures S.clients.Keys == old(S.clients.Keys) && S.counts.refs.Keys == old(S.counts.refs.Keys)
      ensures F.SendAll(S, listed[i + 1..], m, starved) == F.SendAll(old(S), listed[i..], m, starved)
      ensures forall n :: n in Nodes ==> n in old(Nodes) || fresh(n)
    {
      next := c.next;
      assert next == At(listed, i + 1);
      F.SendAllNext(S, listed, i, m, starved, memory);
      SendOne(c, m, memory);
    }

    /** The message can be sent to all of the list. */
    ghost predicate Reaches(m: Message, listed: seq<Client>)
      reads this`S
    {
      && S.listed == listed && (forall c :: c in listed ==> c in S.clients)
      && m in S.raw && m in S.counts.refs && m !in S.counts.freed
    }

    /** Every section of a send thread, in a reachable state, is a step of the machine. */
    method PerformThread(form: Form, request: Request)
      requires Coupled() && F.Inv(S) && OfThread(request) && F.Enabled(S, StepOf(request))
      modifies this, list, S.clients.Keys, Nodes, S.counts.refs.Keys
      ensures F.Enabled(old(S), StepOf(request)) && F.OfThread(StepOf(request))
      ensures Coupled() && S == F.ThreadStep(form, old(S), StepOf(request))
    {
      if request.StepOver? || request.LeaveAwake? || request.LeaveClearing? {
        PerformDrop(form, request);
      } else {
        PerformKeep(form, request);
      }
    }

    /** The sections of a send thread that release nothing. */
    method PerformKeep(form: Form, request: Request)
      requires Coupled() && F.Inv(S)
      requires request.Begin? || request.TakeQueue? || request.Try? || request.EndBatch?
      requires F.Enabled(S, StepOf(request))
      modifies this, list, S.clients.Keys, Nodes, S.counts.refs.Keys
      ensures F.Enabled(old(S), StepOf(request)) && F.OfThread(StepOf(request))
      ensures Coupled() && S == F.ThreadStep(form, old(S), StepOf(request))
    {
      ghost var w := S;
      assert F.Sane(w, request.c);
      match request {
        case Begin(c) =>
          F.MovedIs(w, c, F.Started(w.clients[c]));
          Start(c);
        case TakeQueue(c) =>
          F.MovedIs(w, c, F.Detach(w.clients[c]));
          Detach(c);
        case Try(c, spaces, enqueued) =>
          TriedIs(form, w, c, spaces, enqueued);
          TryFirst(form, c, spaces, enqueued);
        case EndBatch(c) =>
          F.MovedIs(w, c, F.Finish(w.clients[c]));
          Finish(c);
      }
    }

    /** The sections of a send thread that release messages. */
    method PerformDrop(form: Form, request: Request)
      requires Coupled() && F.Inv(S) && (request.StepOver? || request.LeaveAwake? || request.LeaveClearing?)
      requires F.Enabled(S, StepOf(request))
      modifies this, list, S.clients.Keys, Nodes, S.counts.refs.Keys
      ensures F.Enabled(old(S), StepOf(request)) && F.OfThread(StepOf(request))
      ensures Coupled() && S == F.ThreadStep(form, old(S), StepOf(request))
    {
      ghost var w := S;
      assert F.Sane(w, request.c);
      match request {
        case StepOver(c) =>
          QueueCovers(w, c);
          Pop(c, [w.clients[c].batch[0]]);
        case LeaveAwake(c) =>
          ExitCovers(w, c);
          WakeExit(c, F.Remains(F.LeaveThread(w.clients[c])));
        case LeaveClearing(c) =>
          ClearCovers(w, c);
          ClearExit(c, w.clients[c].batch + F.Remains(F.LeaveThread(F.ClearBatch(w.clients[c]))));
      }
    }

    /** The same for what happens to messages. */
    method PerformMessage(form: Form, request: Request) returns (ghost step: F.Step<Client, Message>)
      requires Coupled() && F.Inv(S) && OfMessage(request)
      requires request.MakeMessage? || F.Enabled(S, StepOf(request))
      modifies this, list, S.clients.Keys, Nodes, S.counts.refs.Keys
      ensures F.Enabled(old(S), step) && S == F.Apply(form, old(S), step)
      ensures Coupled()
    {
      ghost var w := S;
      match request {
        case MakeMessage(raw) =>
          var m := Create(raw);
          step := F.CreateStep(m, raw);
        case SendAll(m, starved) =>
          F.HeldIsThere(w, m);
          Broadcast(m, starved);
          step := F.BroadcastStep(m, starved);
        case SendTo(c, m, memory) =>
          F.HeldIsThere(w, m);
          SendOne(c, m, memory);
          step := F.SendStep(c, m, memory);
        case GiveBack(m) =>
          F.HeldIsThere(w, m);
          Release(m);
          step := F.DropStep(m);
      }
    }

    /** The same for the list of clients. */
    method PerformList(form: Form, request: Request) returns (ghost step: F.Step<Client, Message>)
      requires Coupled() && F.Inv(S) && OfList(request)
      requires request.Join? || F.Enabled(S, StepOf(request))
      modifies this, list, S.clients.Keys, Nodes, S.counts.refs.Keys
      ensures F.Enabled(old(S), step) && S == F.Apply(form, old(S), step)
      ensures Coupled()
    {
      ghost var w := S;
      match request {
        case Join(unit, retainFirst) =>
          var c := Connect(unit, form, retainFirst);
          step := F.ConnectStep(c, retainFirst);
        case Part(c) =>
          ExitCovers(w, c);
          var found := Disconnect(c, F.Remains(F.Unlist(w.clients[c])));
          step := F.DisconnectStep(c);
        case Mask(c, mask) =>
          F.MovedIs(w, c, w.clients[c].(mask := mask));
          SetMask(c, mask);
          step := F.MaskStep(c, mask);
      }
    }

    /** Every section, in a reachable state, is a step of the machine: it leads to a reachable state, and links,
        queues, counts and deletions on the heap follow it. */
    method Perform(form: Form, request: Request) returns (ghost step: F.Step<Client, Message>)
      requires Coupled() && F.Inv(S)
      requires request.MakeMessage? || request.Join? || F.Enabled(S, StepOf(request))
      modifies this, list, S.clients.Keys, Nodes, S.counts.refs.Keys
      ensures F.Enabled(old(S), step) && S == F.Apply(form, old(S), step)
      ensures Coupled() && F.Inv(S)
    {
      ghost var w := S;
      if OfThread(request) {
        step := StepOf(request);
        PerformThread(form, request);
      } else if OfMessage(request) {
        step := PerformMessage(form, request);
      } else {
        step := PerformList(form, request);
      }
      F.StepInv(form, w, step);
    }
  }

  ghost function At(s: seq<Client>, i: nat): Client? {
    if i < |s| then s[i] else null
  }
}
