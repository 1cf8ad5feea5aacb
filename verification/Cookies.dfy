/** The socket cookies on the heap (Kext/cookie.h, Kext/cookie.cpp): the list of attached sockets with its counter,
    and the deferred data of one socket with the packet buffers it owns. */
module CookiesHeap {
  import opened Common
  import opened Chains
  import opened IntrusiveList
  import opened Framing
  import D = Deferred

  /** What a packet buffer was used for. */
  datatype Use = Unused | SentIn | SentOut | FreedUp

  /** A packet buffer.  Whoever takes it over or frees it uses it up, which must happen only once. */
  class Buffer {
    ghost var use: Use

    constructor ()
      ensures use == Unused
    {
      use := Unused;
    }
  }

  /** A pointer to a buffer that may be null. */
  function Pointed(b: Option<Buffer>): set<Buffer> {
    match b
    case None => {}
    case Some(buffer) => {buffer}
  }

  function BuffersOf(p: D.Packet<Buffer>): (r: set<Buffer>)
    ensures forall b :: b in r ==> b in D.BufferList(p)
    ensures forall b :: b in D.BufferList(p) ==> b in r
  {
    Pointed(p.data) + Pointed(p.control)
  }

  /** `mbuf_freem`. */
  method Freem(b: Option<Buffer>)
    requires forall x :: x in Pointed(b) ==> x.use == Unused
    modifies Pointed(b)
    ensures forall x :: x in Pointed(b) ==> x.use == FreedUp
  {
    if b.Some? {
      b.value.use := FreedUp;
    }
  }

  /** `sock_inject_data_out`: the socket takes both buffers over, whatever it answers. */
  method InjectOut(p: D.Packet<Buffer>)
    requires forall x :: x in BuffersOf(p) ==> x.use == Unused
    modifies BuffersOf(p)
    ensures forall x :: x in BuffersOf(p) ==> x.use == SentOut
  {
    if p.data.Some? {
      p.data.value.use := SentOut;
    }
    if p.control.Some? {
      p.control.value.use := SentOut;
    }
  }

  /** `sock_inject_data_in`: the socket takes both buffers over if it accepts the packet; otherwise they are still the
      caller's. */
  method InjectIn(p: D.Packet<Buffer>, accepted: bool) returns (failed: bool)
    requires forall x :: x in BuffersOf(p) ==> x.use == Unused
    modifies BuffersOf(p)
    ensures failed == !accepted
    ensures forall x :: x in BuffersOf(p) ==> x.use == if accepted then SentIn else Unused
  {
    failed := !accepted;
    if accepted {
      if p.data.Some? {
        p.data.value.use := SentIn;
      }
      if p.control.Some? {
        p.control.value.use := SentIn;
      }
    }
  }

  function UseOf(fate: D.Fate): Use {
    match fate
    case InjectedIn => SentIn
    case InjectedOut => SentOut
    case RefusedIn => FreedUp
    case Cleared => FreedUp
  }

  /** The fate of a packet under `SendDeferredData`. */
  function FateOf(p: D.Packet<Buffer>, accepted: bool): D.Fate {
    D.SendFirst(D.Empty().(queue := [p]), accepted).done[0].1
  }

  /** The body of the sending loop: the injection in the stored direction, and the frees after an inbound refusal. */
  method InjectOrFree(p: D.Packet<Buffer>, accepted: bool)
    requires Apart(p) && forall x :: x in BuffersOf(p) ==> x.use == Unused
    modifies BuffersOf(p)
    ensures forall x :: x in BuffersOf(p) ==> x.use == UseOf(FateOf(p, accepted)) != Unused
  {
    if p.inbound {
      var failed := InjectIn(p, accepted);
      if failed {
        Freem(p.data);
        Freem(p.control);
      }
    } else {
      InjectOut(p);
    }
  }

  /** The buffers of the waiting packets and those already consumed: every buffer is in one place, once. */
  ghost predicate Tallied(q: D.Queue<Buffer>, waiting: set<Buffer>, gone: set<Buffer>) {
    && waiting !! gone
    && D.Buffers(q.queue) == multiset(waiting)
    && q.injected + q.freed == multiset(gone)
  }

  /** The buffers of a packet are different objects. */
  predicate Apart(p: D.Packet<Buffer>) {
    p.data.Some? ==> p.data != p.control
  }

  type DeferredData = Link<D.Packet<Buffer>>

  class SocketCookie {
    var deferredDataHead: Link?<D.Packet<Buffer>>
    var deferredDataLast: Link?<D.Packet<Buffer>>
    ghost var Nodes: seq<DeferredData>
    ghost var S: D.Queue<Buffer>
    ghost var Waiting: set<Buffer>
    ghost var Gone: set<Buffer>

    /** The chain without its tail pointer, which the loops reset at their end, and who has consumed what. */
    ghost predicate Loaded()
      reads this, Nodes`next, Waiting, Gone
    {
      && Chained(Nodes, deferredDataHead) && Values(Nodes) == S.queue
      && (forall b :: b in Waiting ==> b.use == Unused)
      && (forall b :: b in Gone ==> b.use != Unused)
    }

    ghost predicate Coupled()
      reads this, Nodes`next, Waiting, Gone
    {
      Loaded() && Tail(Nodes, deferredDataLast)
    }

    constructor ()
      ensures Coupled() && S == D.Empty() && Waiting == {} && Gone == {}
    {
      deferredDataHead, deferredDataLast := null, null;
      Nodes := [];
      S := D.Empty();
      Waiting, Gone := {}, {};
    }

    /** The caller hands over buffers nobody has consumed and the cookie does not know. */
    method AddDeferredData(form: Form, arrived: D.Packet<Buffer>, memory: bool) returns (outcome: D.Outcome)
      requires Coupled() && Tallied(S, Waiting, Gone) && !S.faulted && Apart(arrived)
      requires BuffersOf(arrived) !! Waiting + Gone && forall b :: b in BuffersOf(arrived) ==> b.use == Unused
      modifies this, Nodes`next
      ensures Coupled() && Tallied(S, Waiting, Gone) && (S, outcome) == D.Add(form, old(S), arrived, memory)
      ensures Gone == old(Gone)
      ensures Waiting == old(Waiting) + if outcome == D.Added then BuffersOf(arrived) else {}
    {
      if form == AsWritten && arrived.address.None? {
        Halt();
        return D.Fault;
      }
      if !memory {
        return D.NoMemory;
      }
      var p := if form == AsWritten then arrived.(inbound := false) else arrived;
      Keep(p);
      outcome := D.Added;
    }

    /** The kernel faults, and nothing follows. */
    ghost method Halt()
      requires Coupled() && Tallied(S, Waiting, Gone)
      modifies this`S
      ensures Coupled() && Tallied(S, Waiting, Gone) && S == old(S).(faulted := true)
    {
      S := S.(faulted := true);
    }

    method Keep(p: D.Packet<Buffer>)
      requires Coupled() && Tallied(S, Waiting, Gone) && Apart(p)
      requires BuffersOf(p) !! Waiting + Gone && forall b :: b in BuffersOf(p) ==> b.use == Unused
      modifies this, Nodes`next
      ensures Coupled() && Tallied(S, Waiting, Gone) && S == old(S).(queue := old(S).queue + [p])
      ensures Waiting == old(Waiting) + BuffersOf(p) && Gone == old(Gone)
    {
      AppendTallied(S, Waiting, Gone, p);
      Store(p);
    }

    method Attach(p: D.Packet<Buffer>)
      requires Chained(Nodes, deferredDataHead) && Tail(Nodes, deferredDataLast)
      modifies this`deferredDataHead, this`deferredDataLast, this`Nodes, Nodes`next
      ensures Chained(Nodes, deferredDataHead) && Tail(Nodes, deferredDataLast)
      ensures Values(Nodes) == old(Values(Nodes)) + [p]
    {
      var deferredData := new Link(p, this);
      LinkLast(deferredData);
    }

    method Store(p: D.Packet<Buffer>)
      requires Coupled() && forall b :: b in BuffersOf(p) ==> b.use == Unused
      modifies this, Nodes`next
      ensures Coupled() && S == old(S).(queue := old(S).queue + [p])
      ensures Waiting == old(Waiting) + BuffersOf(p) && Gone == old(Gone)
    {
      Attach(p);
      Await(p);
    }

    /** The abstract queue follows the chain. */
    ghost method Await(p: D.Packet<Buffer>)
      requires Chained(Nodes, deferredDataHead) && Tail(Nodes, deferredDataLast) && Values(Nodes) == S.queue + [p]
      requires (forall b :: b in Waiting ==> b.use == Unused) && (forall b :: b in Gone ==> b.use != Unused)
      requires forall b :: b in BuffersOf(p) ==> b.use == Unused
      modifies this`S, this`Waiting
      ensures Coupled() && S == old(S).(queue := old(S).queue + [p]) && Waiting == old(Waiting) + BuffersOf(p)
    {
      S := S.(queue := S.queue + [p]);
      Waiting := Waiting + BuffersOf(p);
    }

    /** The links alone. */
    method LinkLast(deferredData: DeferredData)
      requires Chained(Nodes, deferredDataHead) && Tail(Nodes, deferredDataLast)
      requires deferredData !in Nodes && deferredData.next == null
      modifies this`deferredDataHead, this`deferredDataLast, this`Nodes, Nodes`next
      ensures Chained(Nodes, deferredDataHead) && Tail(Nodes, deferredDataLast)
      ensures Values(Nodes) == old(Values(Nodes)) + [deferredData.value]
    {
      deferredDataHead, deferredDataLast := Chains.Append(deferredDataHead, deferredDataLast, deferredData, Nodes);
      Nodes := Nodes + [deferredData];
    }

    /** The first packet leaves the chain. */
    method Step(ghost u: D.Queue<Buffer>)
      requires deferredDataHead != null && Chained(Nodes, deferredDataHead) && Values(Nodes) == S.queue
      requires u.queue == S.queue[1..]
      modifies this`deferredDataHead, this`Nodes, this`S
      ensures Chained(Nodes, deferredDataHead) && Values(Nodes) == S.queue && S == u
    {
      deferredDataHead := deferredDataHead.next;
      Nodes := Nodes[1..];
      S := u;
    }

    /** The first packet leaves, and its buffers have been consumed. */
    method Leave(ghost u: D.Queue<Buffer>, ghost buffers: set<Buffer>)
      requires deferredDataHead != null && Chained(Nodes, deferredDataHead) && Values(Nodes) == S.queue
      requires u.queue == S.queue[1..]
      requires forall b :: b in Waiting - buffers ==> b.use == Unused
      requires forall b :: b in Gone + buffers ==> b.use != Unused
      modifies this`deferredDataHead, this`Nodes, this`S, this`Waiting, this`Gone
      ensures Loaded() && S == u && Waiting == old(Waiting) - buffers && Gone == old(Gone) + buffers
    {
      Waiting, Gone := Waiting - buffers, Gone + buffers;
      Step(u);
    }

    /** One iteration of the clearing loop: both buffers of the first packet are freed and it leaves. */
    method ClearFirst(ghost u: D.Queue<Buffer>)
      requires Loaded() && deferredDataHead != null && u.queue == S.queue[1..]
      requires Apart(S.queue[0]) && BuffersOf(S.queue[0]) <= Waiting && Waiting !! Gone
      modifies this`deferredDataHead, this`Nodes, this`S, this`Waiting, this`Gone, BuffersOf(deferredDataHead.value)
      ensures Loaded() && S == u
      ensures var p := BuffersOf(old(S).queue[0]); Waiting == old(Waiting) - p && Gone == old(Gone) + p
      ensures forall b :: b in BuffersOf(old(S).queue[0]) ==> b.use == FreedUp
    {
      var p := deferredDataHead.value;
      Freem(p.data);
      Freem(p.control);
      Leave(u, BuffersOf(p));
    }

    /** One iteration of the sending loop: the first packet is injected or freed and leaves. */
    method SendFirst(accepted: bool, ghost u: D.Queue<Buffer>)
      requires Loaded() && deferredDataHead != null && u.queue == S.queue[1..]
      requires Apart(S.queue[0]) && BuffersOf(S.queue[0]) <= Waiting && Waiting !! Gone
      modifies this`deferredDataHead, this`Nodes, this`S, this`Waiting, this`Gone, BuffersOf(deferredDataHead.value)
      ensures Loaded() && S == u
      ensures var p := BuffersOf(old(S).queue[0]); Waiting == old(Waiting) - p && Gone == old(Gone) + p
      ensures forall b :: b in BuffersOf(old(S).queue[0]) ==> b.use == UseOf(FateOf(old(S).queue[0], accepted))
    {
      var p := deferredDataHead.value;
      InjectOrFree(p, accepted);
      Leave(u, BuffersOf(p));
    }

    method ClearOne()
      requires Loaded() && Tallied(S, Waiting, Gone) && deferredDataHead != null
      modifies this`deferredDataHead, this`Nodes, this`S, this`Waiting, this`Gone, Waiting
      ensures Loaded() && Tallied(S, Waiting, Gone) && S == D.ClearFirst(old(S)) && |S.queue| < |old(S).queue|
      ensures Waiting <= old(Waiting) && Waiting + Gone == old(Waiting + Gone)
    {
      FirstTallied(S, Waiting, Gone, true);
      ClearFirst(D.ClearFirst(S));
    }

    method SendOne(accepted: bool, ghost goal: D.Queue<Buffer>)
      requires Loaded() && Tallied(S, Waiting, Gone) && deferredDataHead != null && goal == D.SendFirst(S, accepted)
      modifies this`deferredDataHead, this`Nodes, this`S, this`Waiting, this`Gone, Waiting
      ensures Loaded() && Tallied(S, Waiting, Gone) && S == goal && S.queue == old(S).queue[1..]
      ensures Waiting <= old(Waiting) && Waiting + Gone == old(Waiting + Gone)
    {
      FirstTallied(S, Waiting, Gone, accepted);
      SendFirst(accepted, goal);
    }

    /** Every buffer of every waiting packet is freed once, in order. */
    method ClearDeferredData()
      requires Coupled() && Tallied(S, Waiting, Gone)
      modifies this, Waiting
      ensures Coupled() && S == D.Clear(old(S)) && deferredDataHead == null
      ensures Waiting == {} && Gone == old(Waiting + Gone) && Tallied(S, Waiting, Gone)
    {
      ghost var goal := D.Clear(S);
      while deferredDataHead != null
        invariant Loaded() && Tallied(S, Waiting, Gone) && D.Clear(S) == goal
        invariant Waiting <= old(Waiting) && Waiting + Gone == old(Waiting + Gone)
        decreases |S.queue|
      {
        ClearOne();
      }
      deferredDataLast := null;
      NothingWaits(S, Waiting, Gone);
    }

    /** `accepted` are the answers to the injections, one per packet.  Every buffer is taken over by an injection or
        freed, once, in order. */
    method SendDeferredData(accepted: seq<bool>)
      requires Coupled() && Tallied(S, Waiting, Gone) && |S.queue| <= |accepted|
      modifies this, Waiting
      ensures Coupled() && S == D.Send(old(S), accepted) && deferredDataHead == null
      ensures Waiting == {} && Gone == old(Waiting + Gone) && Tallied(S, Waiting, Gone)
    {
      ghost var goal := D.Send(S, accepted);
      var rest := accepted;
      while deferredDataHead != null
        invariant Loaded() && Tallied(S, Waiting, Gone) && |S.queue| <= |rest|
        invariant D.Send(S, rest) == goal
        invariant Waiting <= old(Waiting) && Waiting + Gone == old(Waiting + Gone)
        decreases |S.queue|
      {
        SendOne(rest[0], D.SendFirst(S, rest[0]));
        rest := rest[1..];
      }
      deferredDataLast := null;
      NothingWaits(S, Waiting, Gone);
    }
  }

  lemma NothingWaits(q: D.Queue<Buffer>, waiting: set<Buffer>, gone: set<Buffer>)
    requires Tallied(q, waiting, gone) && q.queue == []
    ensures waiting == {}
  {
    assert forall b :: b in waiting ==> multiset(waiting)[b] == 1;
  }

  /** Part of a multiset whose elements occur once. */
  lemma OutOfSet<T>(m: multiset<T>, r: multiset<T>, s: set<T>, part: set<T>)
    requires m + r == multiset(s)
    requires forall x :: x in m <==> x in part
    ensures part <= s && m == multiset(part) && r == multiset(s - part)
  {
    forall x
      ensures m[x] + r[x] == if x in s then 1 else 0
    {
      assert (m + r)[x] == multiset(s)[x];
    }
  }

  lemma DisjointSum<T>(a: set<T>, b: set<T>)
    requires a !! b
    ensures multiset(a + b) == multiset(a) + multiset(b)
  {}

  lemma ListMembers(p: D.Packet<Buffer>)
    ensures forall b: Buffer :: b in multiset(D.BufferList(p)) <==> b in BuffersOf(p)
    ensures Apart(p) ==> multiset(D.BufferList(p)) == multiset(BuffersOf(p))
    ensures !Apart(p) ==> multiset(D.BufferList(p))[p.data.value] == 2
  {}

  lemma TalliedMembers(q: D.Queue<Buffer>, waiting: set<Buffer>, gone: set<Buffer>)
    requires Tallied(q, waiting, gone) && q.queue != []
    ensures var p := q.queue[0];
      && Apart(p) && BuffersOf(p) <= waiting
      && multiset(D.BufferList(p)) == multiset(BuffersOf(p))
      && D.Buffers(q.queue[1..]) == multiset(waiting - BuffersOf(p))
  {
    var p := q.queue[0];
    ListMembers(p);
    OutOfSet(multiset(D.BufferList(p)), D.Buffers(q.queue[1..]), waiting, BuffersOf(p));
    assert p.data.Some? ==> multiset(BuffersOf(p))[p.data.value] == 1;
  }

  /** The first packet's buffers are different and wait; once they are consumed, everything is tallied again. */
  lemma FirstTallied(q: D.Queue<Buffer>, waiting: set<Buffer>, gone: set<Buffer>, accepted: bool)
    requires Tallied(q, waiting, gone) && q.queue != []
    ensures var p := BuffersOf(q.queue[0]);
      && Apart(q.queue[0]) && p <= waiting
      && D.ClearFirst(q).queue == q.queue[1..] && Tallied(D.ClearFirst(q), waiting - p, gone + p)
      && D.SendFirst(q, accepted).queue == q.queue[1..] && Tallied(D.SendFirst(q, accepted), waiting - p, gone + p)
  {
    TalliedMembers(q, waiting, gone);
    var p := q.queue[0];
    var m: multiset<Buffer> := multiset(D.BufferList(p));
    D.FreemBoth(q, p);
    D.MoveSum(q.injected, q.freed, m, multiset{});
    DisjointSum(gone, BuffersOf(p));
  }

  lemma AppendTallied(q: D.Queue<Buffer>, waiting: set<Buffer>, gone: set<Buffer>, p: D.Packet<Buffer>)
    requires Tallied(q, waiting, gone) && Apart(p) && BuffersOf(p) !! waiting + gone
    ensures Tallied(q.(queue := q.queue + [p]), waiting + BuffersOf(p), gone)
  {
    D.BuffersAppend(q.queue, p);
    ListMembers(p);
    DisjointSum(waiting, BuffersOf(p));
  }

  /** A cookie with its list links.  Cookies are not counted: the socket owns its cookie. */
  type Attached = Node<SocketCookie>

  class SocketCookies {
    var socketCookies: Node?<SocketCookie>
    var countAttachedCookies: int
    ghost var Listed: seq<Attached>

    /** The counter is the length of the list. */
    ghost predicate Coupled()
      reads this, Listed
    {
      Linked(Listed, {}, socketCookies) && countAttachedCookies == |Listed|
    }

    constructor ()
      ensures Coupled() && Listed == []
    {
      socketCookies := null;
      countAttachedCookies := 0;
      Listed := [];
    }

    method Add(cookie: Attached)
      requires Coupled() && cookie !in Listed && cookie.prev == null
      modifies this, cookie`next, Listed`prev
      ensures Coupled() && Listed == [cookie] + old(Listed)
    {
      countAttachedCookies := countAttachedCookies + 1;
      socketCookies := PushFront(socketCookies, cookie, Listed, {});
      Listed := [cookie] + Listed;
    }

    /** The named cookie leaves the list; the others keep their order. */
    method Remove(cookie: Attached, ghost i: nat)
      requires Coupled() && i < |Listed| && cookie == Listed[i]
      modifies this, Listed`prev, Listed`next
      ensures Coupled() && Listed == RemoveAt(old(Listed), i)
    {
      countAttachedCookies := countAttachedCookies - 1;
      socketCookies := Unlink(socketCookies, cookie, Listed, {}, i);
      Listed := RemoveAt(Listed, i);
    }

    method HaveAttachedSockets() returns (result: bool)
      requires Coupled()
      ensures result <==> Listed != []
      ensures result <==> countAttachedCookies > 0
    {
      result := socketCookies != null;
    }
  }
}
