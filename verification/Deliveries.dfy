/** What the queues of the clients take and what their sockets get, over whole runs of the machine
    (Kext/client.cpp:53-61, 142-163 and 176-269): in terms of the attempts and of bits, not of the log. */
module Deliveries {
  import opened Common
  import opened References
  import opened Messages
  import opened Fanout

  /** `Handed` keeps exactly the entries that say true, in their order. */
  lemma {:induction false} HandedAppend<M>(log: seq<(M, bool)>, m: M, handed: bool)
    ensures Handed<M>([]) == []
    ensures Handed(log + [(m, handed)]) == Handed(log) + if handed then [m] else []
  {
    var entry := (m, handed);
    if |log| == 0 {
      assert log + [entry] == [entry];
      assert [entry][1..] == [];
    } else {
      assert (log + [entry])[1..] == log[1..] + [entry];
      HandedAppend(log[1..], m, handed);
    }
  }

  lemma {:induction false} HandedConcat<M>(a: seq<(M, bool)>, b: seq<(M, bool)>)
    ensures Handed(a + b) == Handed(a) + Handed(b)
  {
    if |a| == 0 {
      assert a + b == b;
    } else {
      assert (a + b)[1..] == a[1..] + b;
      HandedConcat(a[1..], b);
    }
  }

  // ---------------------------------------------------------------- one client

  /** What has reached a client's socket: the messages its thread is done with, and the one it has just handed over. */
  function Reached<M>(s: ClientState<M>): seq<M>
    requires s.tried.Some? ==> s.batch != []
  {
    Handed(s.log) + if s.tried == Some(true) then [s.batch[0]] else []
  }

  lemma PopReached<M>(s: ClientState<M>)
    requires |s.batch| > 0 && s.tried.Some?
    ensures Reached(Pop(s)) == Reached(s)
  {
    HandedAppend(s.log, s.batch[0], s.tried.value);
  }

  /** Giving the batch up hands nothing over, and forgets nothing that was. */
  lemma ClearReached<M>(s: ClientState<M>)
    requires |s.batch| > 0
    ensures Reached(ClearBatch(s)) == Reached(s)
  {
    var first := (s.batch[0], s.tried == Some(true));
    HandedAppend(s.log, first.0, first.1);
    HandedConcat(s.log + [first], GivenUp(s.batch[1..]));
    GivenUpMessages(s.batch[1..]);
  }

  // ---------------------------------------------------------------- one step

  /** There is room at one of the answers that are looked at: the first as written, any of the four corrected. */
  predicate Room(form: Form, size: nat, spaces: seq<nat>)
    requires |spaces| == 4
  {
    if form == AsWritten then spaces[0] >= size else exists i :: 0 <= i < 4 && spaces[i] >= size
  }

  /** What a step hands to the socket of client c: the first message of its batch, when the step is an attempt of its
      thread, there is room and the socket takes the message. */
  ghost function Delivered<C, M>(form: Form, w: World<C, M>, s: Step<C, M>, c: C): seq<M>
    requires Inv(w) && Enabled(w, s)
  {
    if s.TryStep? && s.c == c then
      Loaded(w, c);
      var first := w.clients[c].batch[0];
      if s.enqueued && Room(form, w.raw[first].size, s.spaces) then [first] else []
    else []
  }

  ghost function ReachedBy<C, M>(w: World<C, M>, c: C): seq<M>
    requires Inv(w)
  {
    if c in w.clients then assert Sane(w, c); Reached(w.clients[c]) else []
  }

  lemma AttemptRoom(form: Form, size: nat, spaces: seq<nat>, enqueued: bool)
    requires |spaces| == 4
    ensures Attempt(form, size, spaces, enqueued) <==> enqueued && Room(form, size, spaces)
  {
    if form == Corrected && Attempt(form, size, spaces, enqueued) {
      assert spaces[0] >= size || spaces[1] >= size || spaces[2] >= size || spaces[3] >= size;
    }
  }

  /** A client's socket has got these messages more. */
  ghost predicate Gained<M>(a: ClientState<M>, b: ClientState<M>, more: seq<M>) {
    && (a.tried.Some? ==> a.batch != []) && (b.tried.Some? ==> b.batch != [])
    && Reached(b) == Reached(a) + more
  }

  lemma SameGained<M>(a: ClientState<M>, b: ClientState<M>)
    requires ClientInv(a) && b.batch == a.batch && b.tried == a.tried && b.log == a.log
    ensures Gained(a, b, [])
  {}

  lemma DetachGained<M>(a: ClientState<M>)
    requires ClientInv(a) && a.phase == Waiting
    ensures Gained(a, Detach(a), [])
  {}

  lemma PopGained<M>(a: ClientState<M>)
    requires ClientInv(a) && a.tried.Some?
    ensures Gained(a, Pop(a), [])
  {
    PopReached(a);
  }

  lemma ClearGained<M>(a: ClientState<M>)
    requires ClientInv(a) && a.batch != []
    ensures Gained(a, Buried(LeaveThread(ClearBatch(a))), [])
  {
    ClearReached(a);
  }

  lemma TryGained<M>(a: ClientState<M>, handed: bool)
    requires ClientInv(a) && a.batch != [] && a.tried.None?
    ensures Gained(a, Try(a, handed), if handed then [a.batch[0]] else [])
  {}

  lemma ChangeGained<C, M>(w: World<C, M>, u: World<C, M>, d: C, s: ClientState<M>, c: C, more: seq<M>)
    requires c in w.clients && d in w.clients && u.clients == w.clients[d := s]
    requires ClientInv(w.clients[c]) && Gained(w.clients[d], s, more)
    ensures Gained(w.clients[c], u.clients[c], if c == d then more else [])
  {}

  /** A client's batch and log stay as they are. */
  ghost predicate Untouched<C, M>(a: map<C, ClientState<M>>, b: map<C, ClientState<M>>, c: C)
    requires c in a
  {
    c in b && b[c].batch == a[c].batch && b[c].tried == a[c].tried && b[c].log == a[c].log
  }

  lemma BroadcastQuiet<C, M>(w: World<C, M>, m: M, starved: set<C>, c: C)
    requires Inv(w) && m in w.hold && c in w.clients
    ensures Untouched(w.clients, Sent(w, m, starved).clients, c)
  {
    SendAllReaches(w, w.listed, m, starved);
  }

  lemma ChangeQuiet<C, M>(a: map<C, ClientState<M>>, d: C, s: ClientState<M>, c: C)
    requires c in a && d in a && s.batch == a[d].batch && s.tried == a[d].tried && s.log == a[d].log
    ensures Untouched(a, a[d := s], c)
  {}

  /** What is not an attempt hands nothing over: the queue may grow, and the client may leave the list. */
  lemma QuietGained<C, M>(form: Form, w: World<C, M>, s: Step<C, M>, c: C)
    requires Inv(w) && Enabled(w, s) && !OfThread(s) && c in w.clients
    ensures Untouched(w.clients, Apply(form, w, s).clients, c)
  {
    match s
    case CreateStep(_, _) =>
    case DropStep(_) =>
    case ConnectStep(_, _) =>
    case BroadcastStep(m, starved) => BroadcastQuiet(w, m, starved, c);
    case SendStep(d, m, _) => ChangeQuiet(w.clients, d, Enqueue(w.clients[d], m), c);
    case MaskStep(d, mask) => ChangeQuiet(w.clients, d, w.clients[d].(mask := mask), c);
    case DisconnectStep(d) => ChangeQuiet(w.clients, d, Buried(Unlist(w.clients[d])), c);
  }

  /** A step hands to the socket of a client that is there what `Delivered` says. */
  lemma StepGained<C, M>(form: Form, w: World<C, M>, s: Step<C, M>, c: C)
    requires Inv(w) && Enabled(w, s) && c in w.clients
    ensures c in Apply(form, w, s).clients
    ensures Gained(w.clients[c], Apply(form, w, s).clients[c], Delivered(form, w, s, c))
  {
    if OfThread(s) {
      ThreadGained(form, w, s, c);
    } else {
      QuietGained(form, w, s, c);
      assert Sane(w, c);
      SameGained(w.clients[c], Apply(form, w, s).clients[c]);
    }
  }

  lemma TriedGained<C, M>(form: Form, w: World<C, M>, s: Step<C, M>, c: C)
    requires Inv(w) && Enabled(w, s) && s.TryStep? && c in w.clients
    ensures c in Tried(form, w, s.c, s.spaces, s.enqueued).clients
    ensures Gained(w.clients[c], Tried(form, w, s.c, s.spaces, s.enqueued).clients[c], Delivered(form, w, s, c))
  {
    Loaded(w, s.c);
    assert Sane(w, c) && Sane(w, s.c);
    var first := w.clients[s.c].batch[0];
    AttemptRoom(form, w.raw[first].size, s.spaces, s.enqueued);
    TryGained(w.clients[s.c], Attempt(form, w.raw[first].size, s.spaces, s.enqueued));
  }

  lemma ThreadGained<C, M>(form: Form, w: World<C, M>, s: Step<C, M>, c: C)
    requires Inv(w) && Enabled(w, s) && OfThread(s) && c in w.clients
    ensures c in ThreadStep(form, w, s).clients
    ensures Gained(w.clients[c], ThreadStep(form, w, s).clients[c], Delivered(form, w, s, c))
  {
    var u := ThreadStep(form, w, s);
    assert Sane(w, c) && Sane(w, s.c);
    var before := w.clients[s.c];
    match s
    case StartStep(d) => ChangeGained(w, u, d, Started(before), c, []);
    case DetachStep(d) =>
      DetachGained(before);
      ChangeGained(w, u, d, Detach(before), c, []);
    case TryStep(_, _, _) => TriedGained(form, w, s, c);
    case PopStep(d) =>
      PopGained(before);
      ChangeGained(w, u, d, Pop(before), c, []);
    case FinishStep(d) => ChangeGained(w, u, d, Finish(before), c, []);
    case WakeExitStep(d) => ChangeGained(w, u, d, Buried(LeaveThread(before)), c, []);
    case ClearExitStep(d) =>
      ClearGained(before);
      ChangeGained(w, u, d, Buried(LeaveThread(ClearBatch(before))), c, []);
  }

  /** The same for clients that may only connect in the step. */
  lemma StepReaches<C, M>(form: Form, w: World<C, M>, s: Step<C, M>, c: C)
    requires Inv(w) && Enabled(w, s) && Inv(Apply(form, w, s))
    ensures ReachedBy(Apply(form, w, s), c) == ReachedBy(w, c) + Delivered(form, w, s, c)
  {
    if c in w.clients {
      StepGained(form, w, s, c);
    } else {
      StepJoins(form, w, s, c);
    }
  }

  lemma StepJoins<C, M>(form: Form, w: World<C, M>, s: Step<C, M>, c: C)
    requires Inv(w) && Enabled(w, s) && c !in w.clients
    ensures var u := Apply(form, w, s);
      c in u.clients ==> s.ConnectStep? && s.c == c && u.clients[c] == Connected(form, s.retainFirst)
  {
    if s.BroadcastStep? { SendAllReaches(w, w.listed, s.m, s.starved); }
  }

  // ---------------------------------------------------------------- whole runs

  /** The messages of client c whose attempts succeeded over a run, in the order of the attempts. */
  ghost function AllDelivered<C, M>(form: Form, w: World<C, M>, steps: seq<Step<C, M>>, c: C): seq<M>
    requires Inv(w) && ValidRun(form, w, steps)
    decreases |steps|
  {
    if steps == [] then []
    else
      StepInv(form, w, steps[0]);
      Delivered(form, w, steps[0], c) + AllDelivered(form, Apply(form, w, steps[0]), steps[1..], c)
  }

  lemma {:induction false} RunReaches<C, M>(form: Form, w: World<C, M>, steps: seq<Step<C, M>>, c: C)
    requires Inv(w) && ValidRun(form, w, steps)
    ensures ReachedBy(Run(form, w, steps), c) == ReachedBy(w, c) + AllDelivered(form, w, steps, c)
    decreases |steps|
  {
    if |steps| > 0 {
      StepInv(form, w, steps[0]);
      var v := Apply(form, w, steps[0]);
      StepReaches(form, w, steps[0], c);
      RunReaches(form, v, steps[1..], c);
      Regroup(ReachedBy(w, c), Delivered(form, w, steps[0], c), AllDelivered(form, v, steps[1..], c));
    }
  }

  lemma Regroup<T>(a: seq<T>, b: seq<T>, c: seq<T>)
    ensures (a + b) + c == a + (b + c)
  {}

  /** Over every run and through every exit of the send threads: a client's log, and the attempt its thread is in the
      middle of, say that a message was handed over exactly for the attempts that succeeded, in their order; nothing
      is handed over twice, in the clearing of a batch or after the client is gone. */
  lemma LogTellsAttempts<C, M>(form: Form, steps: seq<Step<C, M>>, c: C)
    requires ValidRun(form, Empty<C, M>(), steps)
    ensures var w := Run(form, Empty<C, M>(), steps);
      c in w.clients ==>
        && (w.clients[c].tried.Some? ==> w.clients[c].batch != [])
        && Handed(w.clients[c].log) + (if w.clients[c].tried == Some(true) then [w.clients[c].batch[0]] else [])
             == AllDelivered(form, Empty<C, M>(), steps, c)
  {
    RunReaches(form, Empty<C, M>(), steps, c);
    var w := Run(form, Empty<C, M>(), steps);
    if c in w.clients { assert Sane(w, c); }
  }

  // ---------------------------------------------------------------- what the queues take

  /** A queue takes at most one message in a step, and only one that has a bit of the mask the client has, when the
      client is connected. */
  ghost predicate Queued<C, M>(w: World<C, M>, a: ClientState<M>, b: ClientState<M>) {
    || b.accepted == a.accepted
    || (a.listed && !a.exit
        && exists m :: m in w.raw && b.accepted == a.accepted + [m]
             && exists bit :: bit in w.raw[m].kind && bit in a.mask)
  }

  lemma EnqueueQueued<C, M>(w: World<C, M>, c: C, m: M, memory: bool)
    requires Inv(w) && c in w.clients && m in w.raw && Accepts(w.clients[c], w.raw[m].kind, memory)
    ensures Queued(w, w.clients[c], Enqueue(w.clients[c], m))
  {
    assert Sane(w, c);
    WantedExactly(w.raw[m].kind, w.clients[c].mask);
  }

  /** Every step, in either form, gives a client's queue at most one message, which has a bit of the client's mask. */
  lemma StepQueues<C, M>(form: Form, w: World<C, M>, s: Step<C, M>, c: C)
    requires Inv(w) && Enabled(w, s) && c in w.clients
    ensures c in Apply(form, w, s).clients && Queued(w, w.clients[c], Apply(form, w, s).clients[c])
  {
    match s
    case CreateStep(_, _) =>
    case DropStep(_) =>
    case ConnectStep(_, _) =>
    case MaskStep(_, _) =>
    case DisconnectStep(_) =>
    case BroadcastStep(m, starved) =>
      SendAllReaches(w, w.listed, m, starved);
      if c in w.listed && Accepts(w.clients[c], w.raw[m].kind, c !in starved) {
        EnqueueQueued(w, c, m, c !in starved);
      }
    case SendStep(d, m, memory) =>
      if Accepts(w.clients[d], w.raw[m].kind, memory) { EnqueueQueued(w, d, m, memory); }
    case _ => ThreadQueues(form, w, s, c);
  }

  lemma ChangeQueues<C, M>(w: World<C, M>, u: World<C, M>, d: C, s: ClientState<M>, c: C)
    requires c in w.clients && d in w.clients && u.clients == w.clients[d := s]
    requires s.accepted == w.clients[d].accepted
    ensures c in u.clients && u.clients[c].accepted == w.clients[c].accepted
  {}

  lemma ThreadQueues<C, M>(form: Form, w: World<C, M>, s: Step<C, M>, c: C)
    requires Inv(w) && Enabled(w, s) && OfThread(s) && c in w.clients
    ensures c in ThreadStep(form, w, s).clients && ThreadStep(form, w, s).clients[c].accepted == w.clients[c].accepted
  {
    var u := ThreadStep(form, w, s);
    assert Sane(w, s.c);
    var before := w.clients[s.c];
    match s
    case StartStep(d) => ChangeQueues(w, u, d, Started(before), c);
    case DetachStep(d) => ChangeQueues(w, u, d, Detach(before), c);
    case TryStep(d, spaces, enqueued) => ChangeQueues(w, u, d, u.clients[d], c);
    case PopStep(d) => ChangeQueues(w, u, d, Pop(before), c);
    case FinishStep(d) => ChangeQueues(w, u, d, Finish(before), c);
    case WakeExitStep(d) => ChangeQueues(w, u, d, Buried(LeaveThread(before)), c);
    case ClearExitStep(d) => ChangeQueues(w, u, d, Buried(LeaveThread(ClearBatch(before))), c);
  }
}
