/** The data a socket holds back until it is decided what to do with it (Kext/cookie.cpp:60-133): in which order and
    direction the packets leave, and who consumes their buffers. */
module Deferred {
  import opened Common
  import opened Framing

  /** One held-back packet: its two buffers, the direction it is stored with, and the peer's address. */
  datatype Packet<B> = Packet(data: Option<B>, control: Option<B>, inbound: bool, address: Option<Bytes>)

  /** What became of a packet. */
  datatype Fate = InjectedIn | RefusedIn | InjectedOut | Cleared

  /** `queue` is the chain behind `deferredDataHead`; `done` the packets that left it, in order.  `injected` are the
      buffers an injection took over, `freed` those `mbuf_freem` was called on.  `faulted` records that a null
      pointer was read, after which nothing more happens. */
  datatype Queue<B> = Queue(
    queue: seq<Packet<B>>,
    done: seq<(Packet<B>, Fate)>,
    injected: multiset<B>,
    freed: multiset<B>,
    faulted: bool)

  datatype Outcome = Added | NoMemory | Fault

  function Empty<B>(): Queue<B> {
    Queue([], [], multiset{}, multiset{}, false)
  }

  function BufferList<B>(p: Packet<B>): seq<B> {
    (match p.data case None => [] case Some(b) => [b]) + (match p.control case None => [] case Some(b) => [b])
  }

  function Buffers<B>(s: seq<Packet<B>>): multiset<B> {
    if s == [] then multiset{} else multiset(BufferList(s[0])) + Buffers(s[1..])
  }

  // ---------------------------------------------------------------- operations

  /** `AddDeferredData`.  As written it never stores its direction, which therefore reads as what the zeroed
      allocation holds, and it reads the length of the address before testing for null (Kext/cookie.cpp:63-73). */
  function Add<B>(form: Form, q: Queue<B>, arrived: Packet<B>, memory: bool): (Queue<B>, Outcome) {
    if form == AsWritten && arrived.address.None? then (q.(faulted := true), Fault)
    else if !memory then (q, NoMemory)
    else
      (q.(queue := q.queue + [if form == AsWritten then arrived.(inbound := false) else arrived]), Added)
  }

  /** `mbuf_freem`, which does nothing on null. */
  function Freem<B>(q: Queue<B>, b: Option<B>): Queue<B> {
    match b
    case None => q
    case Some(buffer) => q.(freed := q.freed + multiset{buffer})
  }

  /** An injection that takes the packet over. */
  function Inject<B>(q: Queue<B>, p: Packet<B>): Queue<B> {
    q.(injected := q.injected + multiset(BufferList(p)))
  }

  function Dequeue<B>(q: Queue<B>, fate: Fate): Queue<B>
    requires q.queue != []
  {
    q.(queue := q.queue[1..], done := q.done + [(q.queue[0], fate)])
  }

  /** One iteration of `ClearDeferredData`. */
  function ClearFirst<B>(q: Queue<B>): Queue<B>
    requires q.queue != []
  {
    Dequeue(Freem(Freem(q, q.queue[0].data), q.queue[0].control), Cleared)
  }

  /** One iteration of `SendDeferredData`; `accepted` is the answer to an inbound injection.  An outbound injection
      takes the packet over whatever it answers. */
  function SendFirst<B>(q: Queue<B>, accepted: bool): Queue<B>
    requires q.queue != []
  {
    var p := q.queue[0];
    if !p.inbound then Dequeue(Inject(q, p), InjectedOut)
    else if accepted then Dequeue(Inject(q, p), InjectedIn)
    else Dequeue(Freem(Freem(q, p.data), p.control), RefusedIn)
  }

  function Clear<B>(q: Queue<B>): Queue<B>
    decreases |q.queue|
  {
    if q.queue == [] then q else Clear(ClearFirst(q))
  }

  function Send<B>(q: Queue<B>, accepted: seq<bool>): Queue<B>
    requires |q.queue| <= |accepted|
    decreases |q.queue|
  {
    if q.queue == [] then q else Send(SendFirst(q, accepted[0]), accepted[1..])
  }

  // ---------------------------------------------------------------- what one packet's way keeps

  /** All packets ever taken in, in order: those that left, then those that wait. */
  function Line<B>(q: Queue<B>): seq<Packet<B>> {
    Firsts(q.done) + q.queue
  }

  /** Every buffer that was taken in, wherever it is now. */
  function Account<B>(q: Queue<B>): multiset<B> {
    q.injected + q.freed + Buffers(q.queue)
  }

  predicate ByInjection(fate: Fate) {
    fate == InjectedIn || fate == InjectedOut
  }

  /** The buffers of the packets that left by an injection, or of those that did not. */
  function Spent<B>(done: seq<(Packet<B>, Fate)>, byInjection: bool): multiset<B> {
    if done == [] then multiset{}
    else
      (if ByInjection(done[0].1) == byInjection then multiset(BufferList(done[0].0)) else multiset{})
      + Spent(done[1..], byInjection)
  }

  /** What was done with a packet fits its stored direction. */
  predicate Fitting<B>(e: (Packet<B>, Fate)) {
    match e.1
    case InjectedIn => e.0.inbound
    case RefusedIn => e.0.inbound
    case InjectedOut => !e.0.inbound
    case Cleared => true
  }

  ghost predicate Books<B>(q: Queue<B>) {
    && (forall i :: 0 <= i < |q.done| ==> Fitting(q.done[i]))
    && q.injected == Spent(q.done, true)
    && q.freed == Spent(q.done, false)
  }

  lemma {:induction false} SpentAppend<B>(done: seq<(Packet<B>, Fate)>, e: (Packet<B>, Fate), byInjection: bool)
    ensures Spent(done + [e], byInjection) == Spent(done, byInjection)
              + (if ByInjection(e.1) == byInjection then multiset(BufferList(e.0)) else multiset{})
  {
    if done == [] {
      assert Spent([e][1..], byInjection) == multiset{};
    } else {
      assert (done + [e])[1..] == done[1..] + [e];
      SpentAppend(done[1..], e, byInjection);
    }
  }

  lemma FreemBoth<B>(q: Queue<B>, p: Packet<B>)
    ensures Freem(Freem(q, p.data), p.control) == q.(freed := q.freed + multiset(BufferList(p)))
  {
    var u := Freem(Freem(q, p.data), p.control);
    assert u.freed == q.freed + multiset(BufferList(p));
  }

  /** Moving some buffers out of the queue into one of the two others changes no sum. */
  lemma MoveSum<B>(i: multiset<B>, f: multiset<B>, moved: multiset<B>, rest: multiset<B>)
    ensures (i + moved) + f + rest == i + f + (moved + rest)
    ensures i + (f + moved) + rest == i + f + (moved + rest)
  {}

  lemma DequeueLine<B>(q: Queue<B>, fate: Fate)
    requires q.queue != []
    ensures Line(Dequeue(q, fate)) == Line(q)
  {
    FirstsConcat(q.done, [(q.queue[0], fate)]);
    assert q.queue == [q.queue[0]] + q.queue[1..];
  }

  lemma DequeueBooks<B>(q: Queue<B>, v: Queue<B>, fate: Fate)
    requires q.queue != [] && Books(q) && Fitting((q.queue[0], fate)) && v.done == q.done && v.queue == q.queue
    requires v.injected == q.injected + (if ByInjection(fate) then multiset(BufferList(q.queue[0])) else multiset{})
    requires v.freed == q.freed + (if ByInjection(fate) then multiset{} else multiset(BufferList(q.queue[0])))
    ensures Books(Dequeue(v, fate))
  {
    SpentAppend(q.done, (q.queue[0], fate), true);
    SpentAppend(q.done, (q.queue[0], fate), false);
  }

  /** The first packet leaves, and its buffers go where its fate says. */
  lemma DequeueKeeps<B>(q: Queue<B>, v: Queue<B>, fate: Fate)
    requires q.queue != [] && Books(q) && Fitting((q.queue[0], fate))
    requires v == if ByInjection(fate) then Inject(q, q.queue[0])
                  else q.(freed := q.freed + multiset(BufferList(q.queue[0])))
    ensures var u := Dequeue(v, fate); Books(u) && Line(u) == Line(q) && Account(u) == Account(q)
  {
    DequeueBooks(q, v, fate);
    DequeueLine(v, fate);
    MoveSum(q.injected, q.freed, multiset(BufferList(q.queue[0])), Buffers(q.queue[1..]));
  }

  lemma ClearFirstKeeps<B>(q: Queue<B>)
    requires q.queue != [] && Books(q)
    ensures var u := ClearFirst(q); Books(u) && Line(u) == Line(q) && Account(u) == Account(q)
  {
    FreemBoth(q, q.queue[0]);
    DequeueKeeps(q, Freem(Freem(q, q.queue[0].data), q.queue[0].control), Cleared);
  }

  lemma SendFirstKeeps<B>(q: Queue<B>, accepted: bool)
    requires q.queue != [] && Books(q)
    ensures var u := SendFirst(q, accepted); Books(u) && Line(u) == Line(q) && Account(u) == Account(q)
  {
    var p := q.queue[0];
    if !p.inbound {
      DequeueKeeps(q, Inject(q, p), InjectedOut);
    } else if accepted {
      DequeueKeeps(q, Inject(q, p), InjectedIn);
    } else {
      FreemBoth(q, p);
      DequeueKeeps(q, Freem(Freem(q, p.data), p.control), RefusedIn);
    }
  }

  lemma {:induction false} ClearKeeps<B>(q: Queue<B>)
    requires Books(q)
    ensures var u := Clear(q);
      u.queue == [] && Books(u) && Line(u) == Line(q) && Account(u) == Account(q) && u.faulted == q.faulted
    decreases |q.queue|
  {
    if q.queue != [] {
      ClearFirstKeeps(q);
      ClearKeeps(ClearFirst(q));
    }
  }

  lemma {:induction false} SendKeeps<B>(q: Queue<B>, accepted: seq<bool>)
    requires Books(q) && |q.queue| <= |accepted|
    ensures var u := Send(q, accepted);
      u.queue == [] && Books(u) && Line(u) == Line(q) && Account(u) == Account(q) && u.faulted == q.faulted
    decreases |q.queue|
  {
    if q.queue != [] {
      SendFirstKeeps(q, accepted[0]);
      SendKeeps(SendFirst(q, accepted[0]), accepted[1..]);
    }
  }

  // ---------------------------------------------------------------- runs

  datatype Step<B> = AddStep(arrived: Packet<B>, memory: bool) | SendStep(accepted: seq<bool>) | ClearStep

  /** Nothing happens after a fault. */
  predicate Enabled<B>(q: Queue<B>, s: Step<B>) {
    !q.faulted && (s.SendStep? ==> |q.queue| <= |s.accepted|)
  }

  function Apply<B>(form: Form, q: Queue<B>, s: Step<B>): Queue<B>
    requires Enabled(q, s)
  {
    match s
    case AddStep(arrived, memory) => Add(form, q, arrived, memory).0
    case SendStep(accepted) => Send(q, accepted)
    case ClearStep => Clear(q)
  }

  predicate ValidRun<B>(form: Form, q: Queue<B>, steps: seq<Step<B>>)
    decreases |steps|
  {
    steps == [] || (Enabled(q, steps[0]) && ValidRun(form, Apply(form, q, steps[0]), steps[1..]))
  }

  function Run<B>(form: Form, q: Queue<B>, steps: seq<Step<B>>): Queue<B>
    requires ValidRun(form, q, steps)
    decreases |steps|
  {
    if steps == [] then q else Run(form, Apply(form, q, steps[0]), steps[1..])
  }

  /** The packet a step takes in, as it arrived. */
  function Taken<B>(form: Form, s: Step<B>): seq<Packet<B>> {
    match s
    case AddStep(arrived, memory) =>
      if memory && !(form == AsWritten && arrived.address.None?) then [arrived] else []
    case _ => []
  }

  function Arrivals<B>(form: Form, steps: seq<Step<B>>): seq<Packet<B>> {
    if steps == [] then [] else Taken(form, steps[0]) + Arrivals(form, steps[1..])
  }

  /** The same packets as they are stored. */
  function Stored<B>(form: Form, s: seq<Packet<B>>): (r: seq<Packet<B>>)
    ensures |r| == |s|
    ensures forall i :: 0 <= i < |s| ==> r[i] == if form == AsWritten then s[i].(inbound := false) else s[i]
  {
    if s == [] then []
    else [if form == AsWritten then s[0].(inbound := false) else s[0]] + Stored(form, s[1..])
  }

  lemma {:induction false} BuffersConcat<B>(a: seq<Packet<B>>, b: seq<Packet<B>>)
    ensures Buffers(a + b) == Buffers(a) + Buffers(b)
  {
    if a == [] {
      assert a + b == b;
    } else {
      assert (a + b)[1..] == a[1..] + b;
      BuffersConcat(a[1..], b);
    }
  }

  lemma BuffersAppend<B>(s: seq<Packet<B>>, p: Packet<B>)
    ensures Buffers(s + [p]) == Buffers(s) + multiset(BufferList(p))
  {
    BuffersConcat(s, [p]);
    assert [p][1..] == [];
  }

  lemma AddLine<B>(form: Form, q: Queue<B>, arrived: Packet<B>, memory: bool)
    ensures var u, taken := Add(form, q, arrived, memory).0, Taken(form, AddStep(arrived, memory));
      && u == q.(queue := u.queue, faulted := u.faulted)
      && u.queue == q.queue + Stored(form, taken)
      && Line(u) == Line(q) + Stored(form, taken)
  {
    assert Stored(form, [arrived]) == [if form == AsWritten then arrived.(inbound := false) else arrived];
  }

  lemma {:induction false} StoredBuffers<B>(form: Form, s: seq<Packet<B>>)
    ensures Buffers(Stored(form, s)) == Buffers(s)
  {
    if s != [] {
      StoredBuffers(form, s[1..]);
      assert Stored(form, s)[1..] == Stored(form, s[1..]);
      assert BufferList(Stored(form, s)[0]) == BufferList(s[0]);
    }
  }

  /** Storing changes no buffer. */
  lemma AddKeeps<B>(form: Form, q: Queue<B>, arrived: Packet<B>, memory: bool)
    requires Books(q)
    ensures var u, taken := Add(form, q, arrived, memory).0, Taken(form, AddStep(arrived, memory));
      Books(u) && Line(u) == Line(q) + Stored(form, taken) && Account(u) == Account(q) + Buffers(taken)
  {
    var taken := Taken(form, AddStep(arrived, memory));
    AddLine(form, q, arrived, memory);
    BuffersConcat(q.queue, Stored(form, taken));
    StoredBuffers(form, taken);
    AppendSum(q.injected + q.freed, Buffers(q.queue), Buffers(taken));
  }

  lemma AppendSum<B>(used: multiset<B>, waiting: multiset<B>, more: multiset<B>)
    ensures used + (waiting + more) == (used + waiting) + more
  {}

  lemma StepKeeps<B>(form: Form, q: Queue<B>, s: Step<B>)
    requires Enabled(q, s) && Books(q)
    ensures var u := Apply(form, q, s);
      && Books(u)
      && Line(u) == Line(q) + Stored(form, Taken(form, s))
      && Account(u) == Account(q) + Buffers(Taken(form, s))
      && u.faulted == (form == AsWritten && s.AddStep? && s.arrived.address.None?)
  {
    match s
    case AddStep(arrived, memory) => AddKeeps(form, q, arrived, memory);
    case SendStep(accepted) => SendKeeps(q, accepted);
    case ClearStep => ClearKeeps(q);
  }

  lemma StoredConcat<B>(form: Form, a: seq<Packet<B>>, b: seq<Packet<B>>)
    ensures Stored(form, a + b) == Stored(form, a) + Stored(form, b)
  {}

  lemma Associate<T>(a: seq<T>, b: seq<T>, c: seq<T>)
    ensures (a + b) + c == a + (b + c)
  {}

  /** Over any run every packet taken in is dealt with once, in arrival order, or still waits behind those that
      were: nothing is lost, repeated or reordered, only the direction can differ from what arrived; and the
      buffers are where the packets' fates put them. */
  lemma {:induction false} RunOrder<B>(form: Form, q: Queue<B>, steps: seq<Step<B>>)
    requires ValidRun(form, q, steps) && Books(q)
    ensures var u := Run(form, q, steps);
      Books(u) && Line(u) == Line(q) + Stored(form, Arrivals(form, steps))
    decreases |steps|
  {
    if steps != [] {
      StepKeeps(form, q, steps[0]);
      RunOrder(form, Apply(form, q, steps[0]), steps[1..]);
      var first, rest := Taken(form, steps[0]), Arrivals(form, steps[1..]);
      StoredConcat(form, first, rest);
      Associate(Line(q), Stored(form, first), Stored(form, rest));
    }
  }

  lemma {:induction false} RunAccount<B>(form: Form, q: Queue<B>, steps: seq<Step<B>>)
    requires ValidRun(form, q, steps) && Books(q)
    ensures Account(Run(form, q, steps)) == Account(q) + Buffers(Arrivals(form, steps))
    decreases |steps|
  {
    if steps != [] {
      StepKeeps(form, q, steps[0]);
      RunAccount(form, Apply(form, q, steps[0]), steps[1..]);
      BuffersConcat(Taken(form, steps[0]), Arrivals(form, steps[1..]));
    }
  }

  lemma EachOnce<B>(injected: multiset<B>, freed: multiset<B>, waiting: multiset<B>, all: multiset<B>)
    requires injected + freed + waiting == all && forall b :: all[b] <= 1
    ensures forall b :: b in all ==> injected[b] + freed[b] == 1 - waiting[b]
  {
    forall b | b in all
      ensures injected[b] + freed[b] == 1 - waiting[b]
    {
      assert (injected + freed + waiting)[b] == all[b] == 1;
    }
  }

  /** Over any run every buffer taken in has been consumed once, by an injection or by `mbuf_freem`, or still waits:
      injections consumed exactly the buffers of the injected packets, frees exactly those of the packets that were
      refused or cleared.  If no buffer came twice, none is consumed twice. */
  lemma BuffersConserved<B>(form: Form, steps: seq<Step<B>>)
    requires ValidRun(form, Empty(), steps)
    ensures var u := Run(form, Empty(), steps);
      var all := Buffers(Arrivals(form, steps));
      && u.injected + u.freed + Buffers(u.queue) == all
      && u.injected == Spent(u.done, true) && u.freed == Spent(u.done, false)
      && ((forall b :: all[b] <= 1) ==> forall b :: b in all ==> u.injected[b] + u.freed[b] == 1 - Buffers(u.queue)[b])
  {
    RunOrder(form, Empty(), steps);
    RunAccount(form, Empty(), steps);
    var u, all := Run(form, Empty(), steps), Buffers(Arrivals(form, steps));
    assert u.injected + u.freed + Buffers(u.queue) == all;
    if forall b :: all[b] <= 1 { EachOnce(u.injected, u.freed, Buffers(u.queue), all); }
  }

  // ---------------------------------------------------------------- which packet meets which fate

  /** The packets leave the queue in order with these fates. */
  ghost predicate Leave<B>(q: Queue<B>, u: Queue<B>, fates: seq<Fate>) {
    && |fates| == |q.queue| && u.queue == [] && |u.done| == |q.done| + |fates|
    && (forall k :: 0 <= k < |q.done| ==> u.done[k] == q.done[k])
    && (forall k :: 0 <= k < |fates| ==> u.done[|q.done| + k] == (q.queue[k], fates[k]))
  }

  lemma LeaveFirst<B>(q: Queue<B>, v: Queue<B>, u: Queue<B>, fate: Fate, fates: seq<Fate>)
    requires q.queue != [] && v.queue == q.queue[1..] && v.done == q.done + [(q.queue[0], fate)]
    requires Leave(v, u, fates)
    ensures Leave(q, u, [fate] + fates)
  {
    forall k | 0 <= k < |fates| + 1
      ensures u.done[|q.done| + k] == (q.queue[k], ([fate] + fates)[k])
    {
      if k > 0 { assert u.done[|v.done| + (k - 1)] == (v.queue[k - 1], fates[k - 1]); }
    }
  }

  /** An outbound packet is injected whatever the answer, an inbound one if the answer to it is yes. */
  function SendFates<B>(s: seq<Packet<B>>, accepted: seq<bool>): (r: seq<Fate>)
    requires |s| <= |accepted|
    ensures |r| == |s|
    ensures forall k :: 0 <= k < |s| ==>
      r[k] == if !s[k].inbound then InjectedOut else if accepted[k] then InjectedIn else RefusedIn
  {
    seq(|s|, k requires 0 <= k < |s| =>
      if !s[k].inbound then InjectedOut else if accepted[k] then InjectedIn else RefusedIn)
  }

  lemma SendFatesFirst<B>(s: seq<Packet<B>>, accepted: seq<bool>)
    requires 0 < |s| <= |accepted|
    ensures SendFates(s, accepted)
         == [if !s[0].inbound then InjectedOut else if accepted[0] then InjectedIn else RefusedIn]
            + SendFates(s[1..], accepted[1..])
  {}

  lemma SendFirstLeaves<B>(q: Queue<B>, accepted: bool)
    requires q.queue != []
    ensures var v, p := SendFirst(q, accepted), q.queue[0];
      && v.queue == q.queue[1..]
      && v.done == q.done +
           [(p, if !p.inbound then InjectedOut else if accepted then InjectedIn else RefusedIn)]
  {
    FreemBoth(q, q.queue[0]);
  }

  lemma {:induction false} SendLeaves<B>(q: Queue<B>, accepted: seq<bool>)
    requires |q.queue| <= |accepted|
    ensures Leave(q, Send(q, accepted), SendFates(q.queue, accepted))
    decreases |q.queue|
  {
    if |q.queue| > 0 {
      var v := SendFirst(q, accepted[0]);
      SendFirstLeaves(q, accepted[0]);
      SendLeaves(v, accepted[1..]);
      SendFatesFirst(q.queue, accepted);
      LeaveFirst(q, v, Send(v, accepted[1..]), v.done[|q.done|].1, SendFates(v.queue, accepted[1..]));
    }
  }

  function AllCleared<B>(s: seq<Packet<B>>): (r: seq<Fate>)
    ensures |r| == |s| && forall k :: 0 <= k < |s| ==> r[k] == Cleared
  {
    seq(|s|, _ => Cleared)
  }

  lemma AllClearedFirst<B>(s: seq<Packet<B>>)
    requires |s| > 0
    ensures AllCleared(s) == [Cleared] + AllCleared(s[1..])
  {}

  lemma ClearFirstLeaves<B>(q: Queue<B>)
    requires q.queue != []
    ensures var v := ClearFirst(q); v.queue == q.queue[1..] && v.done == q.done + [(q.queue[0], Cleared)]
  {
    FreemBoth(q, q.queue[0]);
  }

  lemma {:induction false} ClearLeaves<B>(q: Queue<B>)
    ensures Leave(q, Clear(q), AllCleared(q.queue))
    decreases |q.queue|
  {
    if |q.queue| > 0 {
      var v := ClearFirst(q);
      ClearFirstLeaves(q);
      ClearLeaves(v);
      AllClearedFirst(q.queue);
      LeaveFirst(q, v, Clear(v), Cleared, AllCleared(v.queue));
    }
  }

  /** Sending deals with every waiting packet, in order, injecting the outbound ones and those inbound ones that are
      accepted; clearing injects none, and frees the buffers of all; an arrival touches none. */
  lemma StepFates<B>(form: Form, q: Queue<B>, s: Step<B>)
    requires Enabled(q, s)
    ensures var u := Apply(form, q, s);
      match s
      case AddStep(_, _) => u.done == q.done && q.queue <= u.queue && u.injected == q.injected && u.freed == q.freed
      case SendStep(accepted) => Leave(q, u, SendFates(q.queue, accepted))
      case ClearStep =>
        Leave(q, u, AllCleared(q.queue)) && u.injected == q.injected && u.freed == q.freed + Buffers(q.queue)
  {
    match s
    case AddStep(arrived, memory) =>
    case SendStep(accepted) => SendLeaves(q, accepted);
    case ClearStep =>
      ClearLeaves(q);
      ClearFrees(q);
  }

  lemma {:induction false} ClearFrees<B>(q: Queue<B>)
    ensures Clear(q).injected == q.injected && Clear(q).freed == q.freed + Buffers(q.queue)
    decreases |q.queue|
  {
    if |q.queue| > 0 {
      FreemBoth(q, q.queue[0]);
      ClearFrees(ClearFirst(q));
    }
  }

  // ---------------------------------------------------------------- the null address

  /** Every packet of the run comes with an address. */
  predicate Addressed<B>(steps: seq<Step<B>>) {
    forall i :: 0 <= i < |steps| && steps[i].AddStep? ==> steps[i].arrived.address.Some?
  }

  lemma AddressedSplit<B>(steps: seq<Step<B>>)
    requires steps != []
    ensures Addressed(steps) <==> (steps[0].AddStep? ==> steps[0].arrived.address.Some?) && Addressed(steps[1..])
  {
    var rest := steps[1..];
    if Addressed(rest) && (steps[0].AddStep? ==> steps[0].arrived.address.Some?) {
      forall i | 0 <= i < |steps| && steps[i].AddStep?
        ensures steps[i].arrived.address.Some?
      {
        if i > 0 { assert steps[i] == rest[i - 1]; }
      }
    }
  }

  lemma StepFaults<B>(form: Form, q: Queue<B>, s: Step<B>)
    requires Enabled(q, s) && Books(q)
    ensures Books(Apply(form, q, s))
    ensures Apply(form, q, s).faulted <==> form == AsWritten && s.AddStep? && s.arrived.address.None?
  {
    StepKeeps(form, q, s);
  }

  /** A run ends without a fault if and only if the corrected form is used or every packet came with an address. */
  lemma {:induction false} FaultsOnNullAddress<B>(form: Form, q: Queue<B>, steps: seq<Step<B>>)
    requires ValidRun(form, q, steps) && Books(q) && !q.faulted
    ensures !Run(form, q, steps).faulted <==> form == Corrected || Addressed(steps)
    decreases |steps|
  {
    if steps != [] {
      AddressedSplit(steps);
      StepFaults(form, q, steps[0]);
      var u := Apply(form, q, steps[0]);
      if !u.faulted {
        FaultsOnNullAddress(form, u, steps[1..]);
      }
    }
  }

  /** As written the first packet without an address ends everything; corrected it is queued. */
  lemma NullAddressExample()
    ensures var p := Packet(Some(7), None, true, None);
      && Add(AsWritten, Empty<int>(), p, true).1 == Fault
      && ValidRun(AsWritten, Empty<int>(), [AddStep(p, true)])
      && !ValidRun(AsWritten, Empty<int>(), [AddStep(p, true), ClearStep])
      && Add(Corrected, Empty<int>(), p, true).0.queue == [p]
  {
    var p := Packet(Some(7), None, true, None);
    var steps := [AddStep(p, true), ClearStep];
    assert steps[1..] == [ClearStep];
  }

  // ---------------------------------------------------------------- directions

  /** From an empty queue, every packet keeps the direction it arrived with if and only if the corrected form is
      used or none of them was inbound. */
  lemma DirectionsKept<B>(form: Form, steps: seq<Step<B>>)
    requires ValidRun(form, Empty(), steps)
    ensures var u := Run(form, Empty(), steps);
      var arrived := Arrivals(form, steps);
      && |Line(u)| == |arrived|
      && (Line(u) == arrived <==> form == Corrected || forall i :: 0 <= i < |arrived| ==> !arrived[i].inbound)
  {
    RunOrder(form, Empty(), steps);
    var now, arrived := Line(Run(form, Empty(), steps)), Arrivals(form, steps);
    assert now == Stored(form, arrived);
    if form == AsWritten && now == arrived {
      forall i | 0 <= i < |arrived|
        ensures !arrived[i].inbound
      {
        assert now[i] == arrived[i].(inbound := false);
      }
    }
  }

  lemma {:induction false} FirstsAt<B>(done: seq<(Packet<B>, Fate)>)
    ensures forall i :: 0 <= i < |done| ==> Firsts(done)[i] == done[i].0
  {
    if done != [] {
      FirstsAt(done[1..]);
    }
  }

  lemma DoneIsStored<B>(form: Form, steps: seq<Step<B>>, n: nat)
    requires ValidRun(form, Empty(), steps) && n < |Run(form, Empty(), steps).done|
    ensures n < |Arrivals(form, steps)|
    ensures Run(form, Empty(), steps).done[n].0 == Stored(form, Arrivals(form, steps))[n]
    ensures Books(Run(form, Empty(), steps))
  {
    RunOrder(form, Empty(), steps);
    var u := Run(form, Empty(), steps);
    FirstsAt(u.done);
    assert Line(u) == Stored(form, Arrivals(form, steps));
    assert Line(u)[n] == Firsts(u.done)[n];
  }

  /** The n-th packet taken in is the n-th dealt with, and it is injected in the direction it arrived with, corrected;
      as written every packet that is injected at all goes outbound. */
  lemma InjectedWhereItCame<B>(form: Form, steps: seq<Step<B>>, n: nat)
    requires ValidRun(form, Empty(), steps) && n < |Run(form, Empty(), steps).done|
    ensures var (p, fate) := Run(form, Empty(), steps).done[n];
      var arrived := Arrivals(form, steps);
      && n < |arrived| && p == arrived[n].(inbound := p.inbound)
      && (form == Corrected && fate != Cleared ==> (fate == InjectedOut <==> !arrived[n].inbound))
      && (form == AsWritten ==> fate == InjectedOut || fate == Cleared)
  {
    DoneIsStored(form, steps, n);
    assert Fitting(Run(form, Empty(), steps).done[n]);
  }

  /** As written an inbound packet goes out. */
  lemma InboundGoesOut()
    ensures var p := Packet(Some(7), None, true, Some([2, 0]));
      var w := Send(Add(AsWritten, Empty<int>(), p, true).0, [true]);
      var c := Send(Add(Corrected, Empty<int>(), p, true).0, [true]);
      && |w.done| == 1 && w.done[0].1 == InjectedOut
      && |c.done| == 1 && c.done[0].1 == InjectedIn
  {
    var p := Packet(Some(7), None, true, Some([2, 0]));
    var w := Add(AsWritten, Empty<int>(), p, true).0;
    var c := Add(Corrected, Empty<int>(), p, true).0;
    assert SendFirst(w, true).queue == [] && SendFirst(c, true).queue == [];
    assert Send(w, [true]) == Send(SendFirst(w, true), [true][1..]);
    assert Send(c, [true]) == Send(SendFirst(c, true), [true][1..]);
  }
}
