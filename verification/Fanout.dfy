/** One message, many clients (Kext/client.cpp, Kext/firewall.cpp:681-774): counted messages on the FIFO queues
    of the connected clients, and the send threads that drain them.  Every critical section, and every stretch
    of the send thread between two of its checks, is one step. */
module Fanout {
  import opened Common
  import opened References
  import opened Messages

  /** Where a send thread is: created but before its own `Retain`, asleep, working through a detached batch, or
      past its last statement. */
  datatype Phase = Starting | Waiting | Draining | Gone

  /** `pending` is the queue behind `messageQueueHead`; `batch` is the list the thread has detached, whose first
      message is being worked on; `tried` tells whether it was handed to the socket.  `log` lists what became of
      the messages the thread was done with, `cleared` those still queued when the client was deleted,
      `accepted` every message `Send` took.  `early` records that the thread's own `Retain` ran
      before `references = 1` was stored and was overwritten by it. */
  datatype ClientState<M> = ClientState(
    mask: Word,
    exit: bool,
    listed: bool,
    pending: seq<M>,
    phase: Phase,
    batch: seq<M>,
    tried: Option<bool>,
    log: seq<(M, bool)>,
    cleared: seq<M>,
    accepted: seq<M>,
    early: bool,
    references: int)

  function Queue<M>(s: ClientState<M>): seq<M> {
    s.batch + s.pending
  }

  /** The messages that reached the socket. */
  function Handed<M>(log: seq<(M, bool)>): seq<M> {
    if log == [] then []
    else if log[0].1 then [log[0].0] + Handed(log[1..])
    else Handed(log[1..])
  }

  /** Log entries for a list given up as a whole. */
  function GivenUp<M>(s: seq<M>): (r: seq<(M, bool)>)
    ensures |r| == |s|
  {
    if s == [] then [] else [(s[0], false)] + GivenUp(s[1..])
  }

  // ---------------------------------------------------------------- one client

  /** `KcConnect`: the thread is started before the count is stored, and retains the client itself
      (Kext/client.cpp:75-77 and 176).  If its `Retain` comes first, the store overwrites it; if not, it comes at
      some later time, which `Started` is.  Corrected, the thread's reference is counted before it starts. */
  function Connected<M>(form: Form, retainFirst: bool): ClientState<M> {
    ClientState(INITIAL_CLASSES, false, true, [], if form == AsWritten && !retainFirst then Starting else Waiting,
                [], None, [], [], [], form == AsWritten && retainFirst, if form == AsWritten then 1 else 2)
  }

  function Started<M>(s: ClientState<M>): ClientState<M> {
    s.(phase := Waiting, references := s.references + 1)
  }

  /** `Client::Send`: the tests before the message is queued; `memory` is the outcome of the allocation. */
  predicate Accepts<M>(s: ClientState<M>, kind: Word, memory: bool) {
    !s.exit && Wanted(kind, s.mask) && memory
  }

  function Enqueue<M>(s: ClientState<M>, m: M): ClientState<M> {
    s.(pending := s.pending + [m], accepted := s.accepted + [m])
  }

  /** The thread takes the whole queue. */
  function Detach<M>(s: ClientState<M>): ClientState<M> {
    s.(phase := Draining, batch := s.pending, pending := [])
  }

  /** Whether the first message of the batch gets to the socket.  `spaces` are the answers of
      `ctl_getenqueuespace` and `enqueued` whether `ctl_enqueuedata` succeeds.  As written, `continue` inside
      `do ... while(false)` leaves the loop after the first answer (Kext/client.cpp:215-249); corrected, up to
      three more attempts follow. */
  function Attempt(form: Form, size: nat, spaces: seq<nat>, enqueued: bool): bool
    requires |spaces| == 4
  {
    enqueued && (if form == AsWritten then spaces[0] >= size
                 else spaces[0] >= size || spaces[1] >= size || spaces[2] >= size || spaces[3] >= size)
  }

  function Try<M>(s: ClientState<M>, handed: bool): ClientState<M> {
    s.(tried := Some(handed))
  }

  /** The thread is done with the first message of its batch. */
  function Pop<M>(s: ClientState<M>): ClientState<M>
    requires s.batch != [] && s.tried.Some?
  {
    s.(batch := s.batch[1..], tried := None, log := s.log + [(s.batch[0], s.tried.value)])
  }

  /** `ClearQueue(node)` on the way out: the first message may have been handed over already. */
  function ClearBatch<M>(s: ClientState<M>): ClientState<M>
    requires s.batch != []
  {
    s.(batch := [], tried := None,
       log := s.log + [(s.batch[0], s.tried == Some(true))] + GivenUp(s.batch[1..]))
  }

  function Finish<M>(s: ClientState<M>): ClientState<M> {
    s.(phase := Waiting)
  }

  /** `Client::Free` clears what is still queued. */
  function ClearPending<M>(s: ClientState<M>): ClientState<M> {
    s.(pending := [], cleared := s.pending)
  }

  /** The thread's last statement, and the disconnect: each gives one reference back. */
  function LeaveThread<M>(s: ClientState<M>): ClientState<M> {
    s.(phase := Gone, references := s.references - 1)
  }

  function Unlist<M>(s: ClientState<M>): ClientState<M> {
    s.(listed := false, exit := true, references := s.references - 1)
  }

  /** Every accepted message is in exactly one place, in order: dealt with, in the batch, pending, or
      cleared with the client; and the client's count is the list's reference plus the thread's, unless that
      was overwritten or is still to come. */
  ghost predicate ClientInv<M>(s: ClientState<M>) {
    && s.accepted == Firsts(s.log) + s.batch + s.pending + s.cleared
    && (s.phase != Draining ==> s.batch == [])
    && (s.tried.Some? ==> s.batch != [])
    && (s.listed <==> !s.exit)
    && s.references == Bit(s.listed) + Bit(s.phase != Gone && s.phase != Starting) - Bit(s.early)
    && (s.phase == Gone ==> s.exit)
    && (s.early ==> s.phase != Gone && s.phase != Starting)
    && (s.references == 0 ==> s.pending == [])
    && (s.references > 0 ==> s.cleared == [])
    && s.references >= 0
  }

  lemma {:induction false} GivenUpMessages<M>(s: seq<M>)
    ensures Firsts(GivenUp(s)) == s
    ensures Handed(GivenUp(s)) == []
  {
    if s != [] {
      GivenUpMessages(s[1..]);
      assert GivenUp(s)[1..] == GivenUp(s[1..]);
    }
  }

  lemma PopKeeps<M>(s: ClientState<M>)
    requires ClientInv(s) && s.batch != [] && s.tried.Some?
    ensures ClientInv(Pop(s))
  {
    FirstsConcat(s.log, [(s.batch[0], s.tried.value)]);
    assert s.batch == [s.batch[0]] + s.batch[1..];
  }

  lemma ClearBatchLog<M>(s: ClientState<M>)
    requires s.batch != []
    ensures Firsts(ClearBatch(s).log) == Firsts(s.log) + s.batch
  {
    var first := [(s.batch[0], s.tried == Some(true))];
    FirstsConcat(s.log + first, GivenUp(s.batch[1..]));
    FirstsConcat(s.log, first);
    GivenUpMessages(s.batch[1..]);
    assert Firsts(first) == [s.batch[0]];
    var l := Firsts(s.log);
    assert (l + [s.batch[0]]) + s.batch[1..] == l + s.batch;
  }

  lemma ClearBatchKeeps<M>(s: ClientState<M>)
    requires ClientInv(s) && s.batch != []
    ensures ClientInv(ClearBatch(s))
  {
    ClearBatchLog(s);
  }

  lemma {:induction false} HandedIsSubsequence<M>(log: seq<(M, bool)>, rest: seq<M>)
    ensures Subsequence(Handed(log), Firsts(log) + rest)
  {
    if log != [] {
      HandedIsSubsequence(log[1..], rest);
      var all := Firsts(log) + rest;
      assert all[1..] == Firsts(log[1..]) + rest;
      if !log[0].1 {
        SubsequenceWeaken(Handed(log[1..]), all[1..], all[0]);
        assert all == [all[0]] + all[1..];
      }
    }
  }

  lemma {:induction false} SubsequenceWeaken<M>(a: seq<M>, b: seq<M>, x: M)
    requires Subsequence(a, b)
    ensures Subsequence(a, [x] + b)
  {
    assert ([x] + b)[1..] == b;
    if a != [] && a[0] == x {
      SubsequenceTail(a, b);
    }
  }

  /** What reaches the socket is a subsequence, in order, of what `Send` accepted. */
  lemma HandedInOrder<M>(s: ClientState<M>)
    requires ClientInv(s)
    ensures Subsequence(Handed(s.log), s.accepted)
  {
    HandedIsSubsequence(s.log, s.batch + s.pending + s.cleared);
    assert s.accepted == Firsts(s.log) + (s.batch + s.pending + s.cleared);
  }

  /** The retry loop as written differs from the intended one exactly when the first answer has no room, a later
      one has, and the hand-over would succeed. */
  lemma RetriesNeverHappen(size: nat, spaces: seq<nat>, enqueued: bool)
    requires |spaces| == 4
    ensures Attempt(AsWritten, size, spaces, enqueued) == Attempt(Corrected, size, spaces, enqueued)
       <==> !(enqueued && spaces[0] < size && exists i :: 1 <= i < 4 && spaces[i] >= size)
    ensures Attempt(AsWritten, size, spaces, enqueued) == (enqueued && spaces[0] >= size)
  {
    assert (spaces[1] >= size || spaces[2] >= size || spaces[3] >= size)
        <==> exists i :: 1 <= i < 4 && spaces[i] >= size;
  }

  /** As written a message is dropped although there is room for it on the second attempt. */
  lemma DroppedForWantOfARetry()
    ensures var s := Detach(Enqueue(Connected(Corrected, false), 5));
      && s.batch == [5]
      && Pop(Try(s, Attempt(AsWritten, 16, [0, 64, 64, 64], true))).log == [(5, false)]
      && Pop(Try(s, Attempt(Corrected, 16, [0, 64, 64, 64], true))).log == [(5, true)]
  {
    var s := Detach(Enqueue(Connected(Corrected, false), 5));
    assert s.batch == [5];
  }

  // ---------------------------------------------------------------- all clients and all messages

  /** `order` are all clients ever connected; `listed` is the list behind `firewall.clients`, newest first;
      `hold` are the references of those who created a message and have not released it. */
  datatype World<C, M> = World(
    order: seq<C>,
    listed: seq<C>,
    clients: map<C, ClientState<M>>,
    raw: map<M, Raw>,
    counts: Counts<M>,
    hold: multiset<M>)

  /** Every occurrence of every message on a queue or in a batch. */
  ghost function Load<C, M>(order: seq<C>, clients: map<C, ClientState<M>>): multiset<M>
    requires forall c :: c in order ==> c in clients
  {
    if order == [] then multiset{}
    else multiset(Queue(clients[order[0]])) + Load(order[1..], clients)
  }

  lemma {:induction false} LoadSame<C, M>(order: seq<C>, a: map<C, ClientState<M>>, b: map<C, ClientState<M>>)
    requires forall c :: c in order ==> c in a && c in b && a[c] == b[c]
    ensures Load(order, a) == Load(order, b)
  {
    if order != [] {
      LoadSame(order[1..], a, b);
    }
  }

  /** Changing one client changes the load by the difference of its queues. */
  lemma {:induction false} LoadUpdate<C, M>(order: seq<C>, clients: map<C, ClientState<M>>, c: C, s: ClientState<M>)
    requires Distinct(order) && c in order && forall d :: d in order ==> d in clients
    ensures Load(order, clients[c := s]) + multiset(Queue(clients[c])) == Load(order, clients) + multiset(Queue(s))
  {
    if order[0] == c {
      LoadSame(order[1..], clients, clients[c := s]);
    } else {
      LoadUpdate(order[1..], clients, c, s);
      var q := multiset(Queue(clients[order[0]]));
      var before, after := Load(order[1..], clients), Load(order[1..], clients[c := s]);
      assert (q + after) + multiset(Queue(clients[c])) == q + (after + multiset(Queue(clients[c])));
      assert (q + before) + multiset(Queue(s)) == q + (before + multiset(Queue(s)));
    }
  }

  lemma {:induction false} LoadMembers<C, M>(order: seq<C>, clients: map<C, ClientState<M>>, m: M)
    requires forall c :: c in order ==> c in clients
    ensures m in Load(order, clients) <==> exists c :: c in order && m in Queue(clients[c])
  {
    if order != [] {
      LoadMembers(order[1..], clients, m);
      if m in Load(order, clients) {
        if m in Queue(clients[order[0]]) {
          assert order[0] in order;
        } else {
          var c :| c in order[1..] && m in Queue(clients[c]);
          assert c in order;
        }
      }
      if c :| c in order && m in Queue(clients[c]) {
        assert c == order[0] || c in order[1..];
      }
    }
  }

  ghost predicate Sane<C, M>(w: World<C, M>, c: C) {
    && c in w.clients && c in w.order
    && ClientInv(w.clients[c])
    && (c in w.listed <==> w.clients[c].listed)
  }

  ghost predicate Shape<C, M>(w: World<C, M>) {
    && Distinct(w.order)
    && Distinct(w.listed)
    && (forall c :: c in w.order ==> c in w.clients)
    && (forall c {:trigger Sane(w, c)} :: c in w.clients ==> Sane(w, c))
    && (forall c :: c in w.listed ==> c in w.clients)
    && (forall m :: m in w.counts.refs ==> m in w.raw)
  }

  /** The count of a message is the creator's hold plus its places on all queues and batches. */
  ghost predicate Law<C, M>(w: World<C, M>)
    requires forall c :: c in w.order ==> c in w.clients
  {
    && w.counts.Good()
    && (forall m :: m in w.hold ==> m in w.counts.refs)
    && (forall m :: m in Load(w.order, w.clients) ==> m in w.counts.refs)
    && (forall m :: m in w.counts.refs ==> w.counts.refs[m] == w.hold[m] + Load(w.order, w.clients)[m])
  }

  ghost predicate Inv<C, M>(w: World<C, M>) {
    Shape(w) && Law(w)
  }

  function Empty<C, M>(): (w: World<C, M>)
    ensures Inv(w)
  {
    World([], [], map[], map[], Counts(map[], []), multiset{})
  }

  // ---------------------------------------------------------------- steps

  /** `Client::Send` to one client. */
  function SendOne<C, M>(w: World<C, M>, c: C, m: M, memory: bool): World<C, M>
    requires c in w.clients && m in w.raw && m in w.counts.refs
  {
    if Accepts(w.clients[c], w.raw[m].kind, memory) then
      w.(clients := w.clients[c := Enqueue(w.clients[c], m)], counts := w.counts.Retain(m))
    else w
  }

  lemma SendOneParts<C, M>(w: World<C, M>, c: C, m: M, memory: bool)
    requires c in w.clients && m in w.raw && m in w.counts.refs
    ensures var u, accepted := SendOne(w, c, m, memory), Accepts(w.clients[c], w.raw[m].kind, memory);
      && u.clients == w.clients[c := if accepted then Enqueue(w.clients[c], m) else w.clients[c]]
      && u.counts == (if accepted then w.counts.Retain(m) else w.counts)
      && u.listed == w.listed && u.raw == w.raw && u.order == w.order && u.hold == w.hold
  {}

  /** `Firewall::Send`: the loop over the client list; `starved` are the clients for which no node can be
      allocated. */
  function SendAll<C(==), M>(w: World<C, M>, cs: seq<C>, m: M, starved: set<C>): (r: World<C, M>)
    requires m in w.raw && m in w.counts.refs
    requires forall c :: c in cs ==> c in w.clients
    ensures r.clients.Keys == w.clients.Keys
    decreases |cs|
  {
    if cs == [] then w else SendAll(SendOne(w, cs[0], m, cs[0] !in starved), cs[1..], m, starved)
  }

  /** One client changes and a list of messages loses the references its queue had on them. */
  function Settle<C, M>(w: World<C, M>, listed: seq<C>, c: C, s: ClientState<M>, released: seq<M>): World<C, M>
    requires forall m :: m in released ==> m in w.counts.refs
  {
    w.(listed := listed, clients := w.clients[c := s], counts := ReleaseAll(w.counts, released))
  }

  lemma SendAllNext<C, M>(w: World<C, M>, cs: seq<C>, i: nat, m: M, starved: set<C>, memory: bool)
    requires m in w.raw && m in w.counts.refs && i < |cs| && forall c :: c in cs ==> c in w.clients
    requires memory == (cs[i] !in starved)
    ensures var u := SendOne(w, cs[i], m, memory);
      && u.clients.Keys == w.clients.Keys && u.counts.refs.Keys == w.counts.refs.Keys
      && u.listed == w.listed && u.raw == w.raw && u.counts.freed == w.counts.freed
      && SendAll(w, cs[i..], m, starved) == SendAll(u, cs[i + 1..], m, starved)
  {
    assert cs[i..][0] == cs[i] && cs[i..][1..] == cs[i + 1..];
  }

  /** One client changes and nothing else. */
  function With<C, M>(w: World<C, M>, c: C, s: ClientState<M>): World<C, M> {
    w.(clients := w.clients[c := s])
  }

  /** A client's last reference goes: its pending messages are released. */
  function Buried<M>(s: ClientState<M>): ClientState<M> {
    if s.references == 0 then ClearPending(s) else s
  }

  function Remains<M>(s: ClientState<M>): seq<M> {
    if s.references == 0 then s.pending else []
  }

  datatype Step<C, M> =
    | CreateStep(m: M, content: Raw)
    | BroadcastStep(m: M, starved: set<C>)
    | SendStep(c: C, m: M, memory: bool)
    | DropStep(m: M)
    | ConnectStep(c: C, retainFirst: bool)
    | DisconnectStep(c: C)
    | MaskStep(c: C, mask: Word)
    | StartStep(c: C)
    | DetachStep(c: C)
    | TryStep(c: C, spaces: seq<nat>, enqueued: bool)
    | PopStep(c: C)
    | FinishStep(c: C)
    | WakeExitStep(c: C)
    | ClearExitStep(c: C)

  /** The steps of a send thread stop when its client has been deleted under it. */
  ghost predicate Enabled<C, M>(w: World<C, M>, s: Step<C, M>) {
    match s
    case CreateStep(m, _) => m !in w.counts.refs
    case BroadcastStep(m, _) => m in w.hold
    case SendStep(c, m, _) => c in w.listed && m in w.hold
    case DropStep(m) => m in w.hold
    case ConnectStep(c, _) => c !in w.clients
    case DisconnectStep(c) => c in w.listed
    case MaskStep(c, _) => c in w.listed
    case StartStep(c) => c in w.clients && w.clients[c].phase == Starting && w.clients[c].references > 0
    case DetachStep(c) => c in w.clients && w.clients[c].phase == Waiting && w.clients[c].references > 0
    case TryStep(c, spaces, _) =>
      && c in w.clients && w.clients[c].batch != [] && w.clients[c].tried.None? && |spaces| == 4
      && w.clients[c].references > 0
    case PopStep(c) => c in w.clients && w.clients[c].tried.Some? && w.clients[c].references > 0
    case FinishStep(c) =>
      c in w.clients && w.clients[c].phase == Draining && w.clients[c].batch == [] && w.clients[c].references > 0
    case WakeExitStep(c) =>
      c in w.clients && w.clients[c].phase == Waiting && w.clients[c].exit && w.clients[c].references > 0
    case ClearExitStep(c) =>
      c in w.clients && w.clients[c].batch != [] && w.clients[c].exit && w.clients[c].references > 0
  }

  /** One client changes and nothing is released. */
  ghost function Moved<C, M>(w: World<C, M>, c: C, s: ClientState<M>): World<C, M> {
    Settle(w, w.listed, c, s, [])
  }

  ghost function Masked<C, M>(w: World<C, M>, c: C, mask: Word): World<C, M>
    requires Shape(w) && c in w.listed
  {
    Moved(w, c, w.clients[c].(mask := mask))
  }

  ghost function Created<C, M>(w: World<C, M>, m: M, content: Raw): World<C, M>
    requires m !in w.counts.refs
  {
    w.(raw := w.raw[m := content], counts := w.counts.Track(m, 1), hold := w.hold + multiset{m})
  }

  ghost function Sent<C, M>(w: World<C, M>, m: M, starved: set<C>): World<C, M>
    requires Inv(w) && m in w.hold
  {
    SendAll(w, w.listed, m, starved)
  }

  ghost function SentTo<C, M>(w: World<C, M>, c: C, m: M, memory: bool): World<C, M>
    requires Inv(w) && m in w.hold && c in w.listed
  {
    SendOne(w, c, m, memory)
  }

  function GivenBack<C, M>(w: World<C, M>, m: M): World<C, M>
    requires m in w.counts.refs
  {
    w.(counts := w.counts.Release(m), hold := w.hold - multiset{m})
  }

  ghost function Released<C, M>(w: World<C, M>, m: M): World<C, M>
    requires Inv(w) && m in w.hold
  {
    GivenBack(w, m)
  }

  ghost function Joined<C, M>(form: Form, w: World<C, M>, c: C, retainFirst: bool): World<C, M> {
    w.(order := [c] + w.order, listed := [c] + w.listed, clients := w.clients[c := Connected(form, retainFirst)])
  }

  ghost function Apply<C, M>(form: Form, w: World<C, M>, s: Step<C, M>): World<C, M>
    requires Inv(w) && Enabled(w, s)
  {
    match s
    case CreateStep(m, content) => Created(w, m, content)
    case BroadcastStep(m, starved) => Sent(w, m, starved)
    case SendStep(c, m, memory) => SentTo(w, c, m, memory)
    case DropStep(m) => Released(w, m)
    case ConnectStep(c, retainFirst) => Joined(form, w, c, retainFirst)
    case DisconnectStep(c) => Disconnect(w, c)
    case MaskStep(c, mask) => Masked(w, c, mask)
    case _ => ThreadStep(form, w, s)
  }

  predicate OfThread<C, M>(s: Step<C, M>) {
    s.StartStep? || s.DetachStep? || s.TryStep? || s.PopStep? || s.FinishStep? || s.WakeExitStep? || s.ClearExitStep?
  }

  ghost function ThreadStep<C, M>(form: Form, w: World<C, M>, s: Step<C, M>): World<C, M>
    requires Inv(w) && Enabled(w, s) && OfThread(s)
  {
    match s
    case StartStep(c) => Moved(w, c, Started(w.clients[c]))
    case DetachStep(c) => Moved(w, c, Detach(w.clients[c]))
    case TryStep(c, spaces, enqueued) => Tried(form, w, c, spaces, enqueued)
    case PopStep(c) => Popped(w, c)
    case FinishStep(c) => Moved(w, c, Finish(w.clients[c]))
    case WakeExitStep(c) => WakeExit(w, c)
    case ClearExitStep(c) => ClearExit(w, c)
  }

  lemma MovedIs<C, M>(w: World<C, M>, c: C, s: ClientState<M>)
    ensures Moved(w, c, s) == With(w, c, s)
  {}

  /** A message somebody holds has not been deleted. */
  lemma HeldIsThere<C, M>(w: World<C, M>, m: M)
    requires Inv(w) && m in w.hold
    ensures m in w.raw && m in w.counts.refs && m !in w.counts.freed
    ensures forall c :: c in w.listed ==> c in w.clients
  {}

  lemma Loaded<C, M>(w: World<C, M>, c: C)
    requires Inv(w) && c in w.clients
    ensures forall m :: m in Queue(w.clients[c]) ==>
      m in w.counts.refs && w.counts.refs[m] >= multiset(Queue(w.clients[c]))[m]
    ensures forall m :: m in w.clients[c].batch || m in w.clients[c].pending ==> m in w.counts.refs
  {
    assert Sane(w, c);
    forall m | m in Queue(w.clients[c])
      ensures m in w.counts.refs && w.counts.refs[m] >= multiset(Queue(w.clients[c]))[m]
    {
      LoadMembers(w.order, w.clients, m);
      LoadAtLeast(w.order, w.clients, c);
    }
    forall m | m in w.clients[c].batch || m in w.clients[c].pending
      ensures m in w.counts.refs
    {
      assert m in Queue(w.clients[c]);
    }
  }

  lemma {:induction false} LoadAtLeast<C, M>(order: seq<C>, clients: map<C, ClientState<M>>, c: C)
    requires c in order && forall d :: d in order ==> d in clients
    ensures multiset(Queue(clients[c])) <= Load(order, clients)
  {
    if order[0] != c {
      LoadAtLeast(order[1..], clients, c);
    }
  }

  /** `KcDisconnect`: the client leaves the list, is told to exit and loses the list's reference. */
  ghost function Disconnect<C, M>(w: World<C, M>, c: C): World<C, M>
    requires Inv(w) && c in w.listed
  {
    Loaded(w, c);
    var s := Unlist(w.clients[c]);
    Settle(w, RemoveAt(w.listed, IndexOf(w.listed, c)), c, Buried(s), Remains(s))
  }

  ghost function Tried<C, M>(form: Form, w: World<C, M>, c: C, spaces: seq<nat>, enqueued: bool): World<C, M>
    requires Inv(w) && c in w.clients && w.clients[c].batch != [] && |spaces| == 4
  {
    Loaded(w, c);
    var s := w.clients[c];
    Settle(w, w.listed, c, Try(s, Attempt(form, w.raw[s.batch[0]].size, spaces, enqueued)), [])
  }

  ghost function Popped<C, M>(w: World<C, M>, c: C): World<C, M>
    requires Inv(w) && c in w.clients && w.clients[c].tried.Some?
  {
    assert Sane(w, c);
    Loaded(w, c);
    Settle(w, w.listed, c, Pop(w.clients[c]), [w.clients[c].batch[0]])
  }

  /** `goto exit`: the thread saw `exitState` right after it woke. */
  ghost function WakeExit<C, M>(w: World<C, M>, c: C): World<C, M>
    requires Inv(w) && c in w.clients
  {
    Loaded(w, c);
    var s := LeaveThread(w.clients[c]);
    Settle(w, w.listed, c, Buried(s), Remains(s))
  }

  /** `goto exitAndClearQueue`: the rest of the batch is given up. */
  ghost function ClearExit<C, M>(w: World<C, M>, c: C): World<C, M>
    requires Inv(w) && c in w.clients && w.clients[c].batch != []
  {
    Loaded(w, c);
    var s := LeaveThread(ClearBatch(w.clients[c]));
    Settle(w, w.listed, c, Buried(s), w.clients[c].batch + Remains(s))
  }

  // ---------------------------------------------------------------- every step keeps the law

  /** One known client changes: what the shape needs. */
  lemma ClientShape<C, M>(w: World<C, M>, u: World<C, M>, c: C, s: ClientState<M>)
    requires Shape(w) && c in w.clients && ClientInv(s)
    requires Distinct(u.listed) && (forall d :: d in u.listed ==> d in w.clients)
    requires (c in u.listed <==> s.listed) && forall d :: d != c ==> (d in u.listed <==> d in w.listed)
    requires u.order == w.order && u.clients == w.clients[c := s] && u.raw == w.raw
    requires forall m :: m in u.counts.refs ==> m in w.counts.refs
    ensures Shape(u)
  {
    forall d | d in u.clients
      ensures Sane(u, d)
    {
      assert Sane(w, if d == c then c else d);
    }
  }

  lemma ReleasedKnown<C, M>(w: World<C, M>, c: C, released: seq<M>)
    requires Inv(w) && c in w.clients
    requires multiset(released) <= multiset(Queue(w.clients[c]))
    ensures forall m :: m in released ==> m in w.counts.refs && w.counts.refs[m] >= multiset(released)[m]
  {
    Loaded(w, c);
    forall m | m in released
      ensures m in w.counts.refs && w.counts.refs[m] >= multiset(released)[m]
    {
      assert multiset(released)[m] <= multiset(Queue(w.clients[c]))[m];
      assert m in multiset(Queue(w.clients[c]));
    }
  }

  /** A client changes, and exactly what its queue no longer holds is released. */
  lemma SettleInv<C, M>(w: World<C, M>, listed: seq<C>, c: C, s: ClientState<M>, released: seq<M>)
    requires Inv(w) && c in w.clients && ClientInv(s)
    requires Distinct(listed) && (forall d :: d in listed ==> d in w.clients)
    requires (c in listed <==> s.listed) && forall d :: d != c ==> (d in listed <==> d in w.listed)
    requires multiset(Queue(s)) + multiset(released) == multiset(Queue(w.clients[c]))
    ensures forall m :: m in released ==> m in w.counts.refs
    ensures Inv(Settle(w, listed, c, s, released))
  {
    assert Sane(w, c);
    ReleasedKnown(w, c, released);
    ReleaseAllGood(w.counts, released);
    var u := Settle(w, listed, c, s, released);
    ClientShape(w, u, c, s);
    LoadUpdate(w.order, w.clients, c, s);
    LoadShrinks(Load(u.order, u.clients), Load(w.order, w.clients), multiset(Queue(s)), multiset(released));
    SettleLaw(w, u, released);
  }

  lemma LoadShrinks<M>(k: multiset<M>, l: multiset<M>, q: multiset<M>, r: multiset<M>)
    requires k + (q + r) == l + q
    ensures k + r == l
  {
    forall x
      ensures (k + r)[x] == l[x]
    {
      assert (k + (q + r))[x] == (l + q)[x];
    }
  }

  lemma SettleLaw<C, M>(w: World<C, M>, u: World<C, M>, released: seq<M>)
    requires Shape(w) && Law(w)
    requires (forall c :: c in u.order ==> c in u.clients) && u.counts.Good() && u.hold == w.hold
    requires u.counts.refs.Keys == w.counts.refs.Keys
    requires forall m :: m in w.counts.refs ==> u.counts.refs[m] == w.counts.refs[m] - multiset(released)[m]
    requires Load(u.order, u.clients) + multiset(released) == Load(w.order, w.clients)
    ensures Law(u)
  {
    var l, k := Load(w.order, w.clients), Load(u.order, u.clients);
    forall m
      ensures k[m] + multiset(released)[m] == l[m]
    {
      assert (k + multiset(released))[m] == l[m];
    }
  }

  lemma EnqueueKeeps<M>(s: ClientState<M>, m: M)
    requires ClientInv(s) && s.listed
    ensures ClientInv(Enqueue(s, m))
    ensures Queue(Enqueue(s, m)) == Queue(s) + [m]
  {}

  lemma EnqueueInv<C, M>(w: World<C, M>, c: C, m: M)
    requires Inv(w) && c in w.clients && w.clients[c].listed && m in w.counts.refs && m !in w.counts.freed
    ensures Inv(w.(clients := w.clients[c := Enqueue(w.clients[c], m)], counts := w.counts.Retain(m)))
  {
    assert Sane(w, c);
    var s := Enqueue(w.clients[c], m);
    var u := w.(clients := w.clients[c := s], counts := w.counts.Retain(m));
    EnqueueKeeps(w.clients[c], m);
    ClientShape(w, u, c, s);
    RetainGood(w.counts, m);
    LoadUpdate(w.order, w.clients, c, s);
    EnqueueLoad(Load(u.order, u.clients), Load(w.order, w.clients), multiset(Queue(w.clients[c])), m);
    GrowLaw(w, u, m);
  }

  lemma GrowLaw<C, M>(w: World<C, M>, u: World<C, M>, m: M)
    requires (forall c :: c in w.order ==> c in w.clients) && Law(w) && m in w.counts.refs
    requires (forall c :: c in u.order ==> c in u.clients) && u.counts.Good() && u.hold == w.hold
    requires u.counts == w.counts.Retain(m)
    requires Load(u.order, u.clients) == Load(w.order, w.clients) + multiset{m}
    ensures Law(u)
  {
    var l, k := Load(w.order, w.clients), Load(u.order, u.clients);
    assert forall x :: k[x] == l[x] + (if x == m then 1 else 0);
  }

  lemma EnqueueLoad<M>(k: multiset<M>, l: multiset<M>, q: multiset<M>, m: M)
    requires k + q == l + (q + multiset{m})
    ensures k == l + multiset{m}
  {
    forall x
      ensures k[x] == (l + multiset{m})[x]
    {
      assert (k + q)[x] == (l + (q + multiset{m}))[x];
    }
  }

  lemma {:induction false} SendAllInv<C, M>(w: World<C, M>, cs: seq<C>, m: M, starved: set<C>)
    requires Inv(w) && m in w.counts.refs && m in w.hold
    requires forall c :: c in cs ==> c in w.clients && c in w.listed
    ensures Inv(SendAll(w, cs, m, starved))
    decreases |cs|
  {
    if cs != [] {
      assert m !in w.counts.freed;
      assert Sane(w, cs[0]);
      var u := SendOne(w, cs[0], m, cs[0] !in starved);
      if u != w { EnqueueInv(w, cs[0], m); }
      SendAllInv(u, cs[1..], m, starved);
    }
  }

  lemma CreateInv<C, M>(w: World<C, M>, m: M, content: Raw)
    requires Inv(w) && m !in w.counts.refs
    ensures Inv(Created(w, m, content))
  {
    var u := w.(raw := w.raw[m := content], counts := w.counts.Track(m, 1), hold := w.hold + multiset{m});
    TrackGood(w.counts, m, 1);
    CreateLaw(w, u, m);
    CreateShape(w, u);
  }

  lemma CreateShape<C, M>(w: World<C, M>, u: World<C, M>)
    requires Shape(w) && u.order == w.order && u.listed == w.listed && u.clients == w.clients
    requires forall m :: m in u.counts.refs ==> m in u.raw
    ensures Shape(u)
  {
    forall c | c in u.clients
      ensures Sane(u, c)
    {
      assert Sane(w, c);
    }
  }

  lemma CreateLaw<C, M>(w: World<C, M>, u: World<C, M>, m: M)
    requires Shape(w) && Law(w) && m !in w.counts.refs
    requires u.order == w.order && u.clients == w.clients
    requires u.counts == w.counts.Track(m, 1) && u.counts.Good() && u.hold == w.hold + multiset{m}
    ensures Law(u)
  {
    assert m !in w.hold && m !in Load(w.order, w.clients);
  }

  lemma DropLaw<C, M>(w: World<C, M>, u: World<C, M>, m: M)
    requires (forall c :: c in w.order ==> c in w.clients) && Law(w) && m in w.hold && m in w.counts.refs
    requires u.order == w.order && u.clients == w.clients
    requires u.counts == w.counts.Release(m) && u.counts.Good() && u.hold == w.hold - multiset{m}
    ensures Law(u)
  {}

  lemma DropHoldInv<C, M>(w: World<C, M>, m: M)
    requires Inv(w) && m in w.hold
    ensures Inv(Released(w, m))
  {
    HeldIsThere(w, m);
    ReleaseGood(w.counts, m);
    DropLaw(w, Released(w, m), m);
    CreateShape(w, Released(w, m));
  }

  lemma ConnectShape<C, M>(w: World<C, M>, u: World<C, M>, c: C, s: ClientState<M>)
    requires Shape(w) && c !in w.clients && ClientInv(s) && s.listed
    requires u == w.(order := [c] + w.order, listed := [c] + w.listed, clients := w.clients[c := s])
    ensures Shape(u)
  {
    forall d | d in u.clients
      ensures Sane(u, d)
    {
      if d != c { assert Sane(w, d); }
    }
    assert c !in w.order && c !in w.listed;
  }

  lemma ConnectInv<C, M>(form: Form, w: World<C, M>, c: C, retainFirst: bool)
    requires Inv(w) && c !in w.clients
    ensures Inv(Joined(form, w, c, retainFirst))
  {
    var s: ClientState<M> := Connected(form, retainFirst);
    var u := w.(order := [c] + w.order, listed := [c] + w.listed, clients := w.clients[c := s]);
    ConnectShape(w, u, c, s);
    LoadSame(w.order, w.clients, u.clients);
    ConnectLaw(w, u, c);
  }

  lemma ConnectLaw<C, M>(w: World<C, M>, u: World<C, M>, c: C)
    requires Shape(w) && Law(w) && u.counts == w.counts && u.hold == w.hold
    requires u.order == [c] + w.order && (forall d :: d in u.order ==> d in u.clients) && Queue(u.clients[c]) == []
    requires Load(w.order, u.clients) == Load(w.order, w.clients)
    ensures Law(u)
  {
    assert u.order[1..] == w.order;
    assert Load(u.order, u.clients) == Load(w.order, w.clients);
  }

  lemma DisconnectInv<C, M>(w: World<C, M>, c: C)
    requires Inv(w) && c in w.listed
    ensures Inv(Disconnect(w, c))
  {
    assert Sane(w, c);
    var i := IndexOf(w.listed, c);
    var s := Unlist(w.clients[c]);
    RemoveAtMembers(w.listed, i);
    var listed := RemoveAt(w.listed, i);
    assert forall d :: d in listed <==> d in ToSet(listed);
    UnlistBuried(w.clients[c]);
    SettleInv(w, listed, c, Buried(s), Remains(s));
  }

  lemma UnlistBuried<M>(s: ClientState<M>)
    requires ClientInv(s) && s.listed
    ensures ClientInv(Buried(Unlist(s))) && !Buried(Unlist(s)).listed
    ensures multiset(Queue(Buried(Unlist(s)))) + multiset(Remains(Unlist(s))) == multiset(Queue(s))
  {
    assert Queue(ClearPending(Unlist(s))) == s.batch;
  }

  lemma WakeExitInv<C, M>(w: World<C, M>, c: C)
    requires Inv(w) && Enabled(w, WakeExitStep(c))
    ensures Inv(WakeExit(w, c))
  {
    assert Sane(w, c);
    LeaveBuried(w.clients[c]);
    var s := LeaveThread(w.clients[c]);
    SettleInv(w, w.listed, c, Buried(s), Remains(s));
  }

  /** A thread leaves with nothing in its batch. */
  lemma LeaveBuried<M>(s: ClientState<M>)
    requires ClientInv(s) && s.batch == [] && s.exit && s.phase != Gone && s.references > 0
    ensures ClientInv(Buried(LeaveThread(s))) && Buried(LeaveThread(s)).listed == s.listed
    ensures multiset(Queue(Buried(LeaveThread(s)))) + multiset(Remains(LeaveThread(s))) == multiset(Queue(s))
  {
    assert Queue(ClearPending(LeaveThread(s))) == [];
    assert Queue(s) == s.pending;
  }

  /** A thread gives up its batch and leaves. */
  lemma ClearLeaves<M>(s: ClientState<M>)
    requires ClientInv(s) && s.batch != [] && s.exit && s.references > 0
    ensures var v := LeaveThread(ClearBatch(s));
      && ClientInv(Buried(v)) && Buried(v).listed == s.listed
      && multiset(Queue(Buried(v))) + multiset(s.batch + Remains(v)) == multiset(Queue(s))
  {
    ClearBatchKeeps(s);
    var v := ClearBatch(s);
    LeaveBuried(v);
    var r := Remains(LeaveThread(v));
    assert Queue(v) == s.pending;
    assert multiset(s.batch + r) == multiset(s.batch) + multiset(r);
    assert multiset(Queue(s)) == multiset(s.batch) + multiset(s.pending);
  }

  lemma ClearExitInv<C, M>(w: World<C, M>, c: C)
    requires Inv(w) && Enabled(w, ClearExitStep(c))
    ensures Inv(ClearExit(w, c))
  {
    assert Sane(w, c);
    var s := w.clients[c];
    ClearLeaves(s);
    var v := LeaveThread(ClearBatch(s));
    SettleInv(w, w.listed, c, Buried(v), s.batch + Remains(v));
  }

  lemma PopQueue<M>(s: ClientState<M>)
    requires s.batch != [] && s.tried.Some?
    ensures multiset(Queue(Pop(s))) + multiset([s.batch[0]]) == multiset(Queue(s))
  {
    assert Queue(s) == [s.batch[0]] + Queue(Pop(s));
  }

  lemma PopInv<C, M>(w: World<C, M>, c: C)
    requires Inv(w) && Enabled(w, PopStep(c))
    ensures Inv(Popped(w, c))
  {
    assert Sane(w, c);
    PopKeeps(w.clients[c]);
    PopQueue(w.clients[c]);
    SettleInv(w, w.listed, c, Pop(w.clients[c]), [w.clients[c].batch[0]]);
  }

  /** The steps that move messages without dropping any. */
  lemma MoveInv<C, M>(w: World<C, M>, c: C, s: ClientState<M>)
    requires Inv(w) && c in w.clients && ClientInv(s) && s.listed == w.clients[c].listed
    requires Queue(s) == Queue(w.clients[c])
    ensures Inv(Moved(w, c, s))
  {
    assert Sane(w, c);
    SettleInv(w, w.listed, c, s, []);
  }

  lemma DetachKeeps<M>(s: ClientState<M>)
    requires ClientInv(s) && s.phase == Waiting
    ensures ClientInv(Detach(s)) && Queue(Detach(s)) == Queue(s)
  {}

  lemma StartKeeps<M>(s: ClientState<M>)
    requires ClientInv(s) && s.phase == Starting && s.references > 0
    ensures ClientInv(Started(s)) && Queue(Started(s)) == Queue(s)
  {}

  lemma MaskInv<C, M>(w: World<C, M>, c: C, mask: Word)
    requires Inv(w) && c in w.listed
    ensures Inv(Masked(w, c, mask))
  {
    assert Sane(w, c);
    MoveInv(w, c, w.clients[c].(mask := mask));
  }

  lemma BeginInv<C, M>(w: World<C, M>, c: C)
    requires Inv(w) && Enabled(w, StartStep(c))
    ensures Inv(Moved(w, c, Started(w.clients[c])))
  {
    assert Sane(w, c);
    StartKeeps(w.clients[c]);
    MoveInv(w, c, Started(w.clients[c]));
  }

  lemma DetachInv<C, M>(w: World<C, M>, c: C)
    requires Inv(w) && Enabled(w, DetachStep(c))
    ensures Inv(Moved(w, c, Detach(w.clients[c])))
  {
    assert Sane(w, c);
    DetachKeeps(w.clients[c]);
    MoveInv(w, c, Detach(w.clients[c]));
  }

  lemma FinishInv<C, M>(w: World<C, M>, c: C)
    requires Inv(w) && Enabled(w, FinishStep(c))
    ensures Inv(Moved(w, c, Finish(w.clients[c])))
  {
    assert Sane(w, c);
    MoveInv(w, c, Finish(w.clients[c]));
  }

  lemma StepInv<C, M>(form: Form, w: World<C, M>, s: Step<C, M>)
    requires Inv(w) && Enabled(w, s)
    ensures Inv(Apply(form, w, s))
  {
    match s
    case CreateStep(m, content) => CreateInv(w, m, content);
    case BroadcastStep(m, starved) => BroadcastInv(w, m, starved);
    case SendStep(c, m, memory) => BroadcastOneInv(w, c, m, memory);
    case DropStep(m) => DropHoldInv(w, m);
    case ConnectStep(c, retainFirst) => ConnectInv(form, w, c, retainFirst);
    case DisconnectStep(c) => DisconnectInv(w, c);
    case MaskStep(c, mask) => MaskInv(w, c, mask);
    case _ => ThreadStepInv(form, w, s);
  }

  lemma ThreadStepInv<C, M>(form: Form, w: World<C, M>, s: Step<C, M>)
    requires Inv(w) && Enabled(w, s) && OfThread(s)
    ensures Inv(ThreadStep(form, w, s))
  {
    match s
    case StartStep(c) => BeginInv(w, c);
    case DetachStep(c) => DetachInv(w, c);
    case TryStep(c, spaces, enqueued) => TryInv(form, w, c, spaces, enqueued);
    case PopStep(c) => PopInv(w, c);
    case FinishStep(c) => FinishInv(w, c);
    case WakeExitStep(c) => WakeExitInv(w, c);
    case ClearExitStep(c) => ClearExitInv(w, c);
  }

  lemma BroadcastInv<C, M>(w: World<C, M>, m: M, starved: set<C>)
    requires Inv(w) && m in w.hold
    ensures m in w.counts.refs && m in w.raw && (forall c :: c in w.listed ==> c in w.clients)
    ensures Inv(Sent(w, m, starved))
  {
    SendAllInv(w, w.listed, m, starved);
  }

  lemma {:induction false} SendAllReaches<C, M>(w: World<C, M>, cs: seq<C>, m: M, starved: set<C>)
    requires m in w.raw && m in w.counts.refs && Distinct(cs)
    requires forall c :: c in cs ==> c in w.clients
    ensures var u := SendAll(w, cs, m, starved);
      && u.raw == w.raw && u.listed == w.listed
      && forall c :: c in w.clients ==>
           u.clients[c] == if c in cs && Accepts(w.clients[c], w.raw[m].kind, c !in starved)
                           then Enqueue(w.clients[c], m) else w.clients[c]
    decreases |cs|
  {
    if cs != [] {
      var v := SendOne(w, cs[0], m, cs[0] !in starved);
      assert Distinct(cs[1..]) && cs[0] !in cs[1..];
      assert forall c :: c in cs <==> c == cs[0] || c in cs[1..];
      SendAllReaches(v, cs[1..], m, starved);
    }
  }

  /** A broadcast puts the message once at the end of the queue of every listed client that is not exiting, has a bit
      of the message's type in its mask and gets a node, and touches no other client. */
  lemma BroadcastReaches<C, M>(w: World<C, M>, m: M, starved: set<C>)
    requires Inv(w) && m in w.hold
    ensures m in w.raw
    ensures var u := Sent(w, m, starved);
      && u.clients.Keys == w.clients.Keys
      && forall c :: c in w.clients ==>
           if c in w.listed && !w.clients[c].exit && c !in starved
              && exists b :: b in w.raw[m].kind && b in w.clients[c].mask
           then u.clients[c].pending == w.clients[c].pending + [m]
           else u.clients[c] == w.clients[c]
  {
    SendAllReaches(w, w.listed, m, starved);
    forall c | c in w.clients
      ensures Wanted(w.raw[m].kind, w.clients[c].mask) <==> exists b :: b in w.raw[m].kind && b in w.clients[c].mask
    {
      WantedExactly(w.raw[m].kind, w.clients[c].mask);
    }
  }

  lemma BroadcastOneInv<C, M>(w: World<C, M>, c: C, m: M, memory: bool)
    requires Inv(w) && m in w.hold && c in w.listed
    ensures Inv(SentTo(w, c, m, memory))
  {
    assert m !in w.counts.freed;
    assert Sane(w, c);
    if SendOne(w, c, m, memory) != w { EnqueueInv(w, c, m); }
  }

  lemma TryInv<C, M>(form: Form, w: World<C, M>, c: C, spaces: seq<nat>, enqueued: bool)
    requires Inv(w) && c in w.clients && w.clients[c].batch != [] && |spaces| == 4
    ensures Inv(Tried(form, w, c, spaces, enqueued))
  {
    Loaded(w, c);
    assert Sane(w, c);
    var s := w.clients[c];
    var t := Try(s, Attempt(form, w.raw[s.batch[0]].size, spaces, enqueued));
    TryKeeps(s, t.tried.value);
    MoveInv(w, c, t);
  }

  lemma TryKeeps<M>(s: ClientState<M>, handed: bool)
    requires ClientInv(s) && s.batch != []
    ensures ClientInv(Try(s, handed)) && Queue(Try(s, handed)) == Queue(s) && Try(s, handed).listed == s.listed
  {}

  // ---------------------------------------------------------------- runs

  ghost predicate ValidRun<C, M>(form: Form, w: World<C, M>, steps: seq<Step<C, M>>)
    requires Inv(w)
    decreases |steps|
  {
    steps == [] ||
    (Enabled(w, steps[0]) && (StepInv(form, w, steps[0]); ValidRun(form, Apply(form, w, steps[0]), steps[1..])))
  }

  ghost function Run<C, M>(form: Form, w: World<C, M>, steps: seq<Step<C, M>>): (u: World<C, M>)
    requires Inv(w) && ValidRun(form, w, steps)
    ensures Inv(u)
    decreases |steps|
  {
    if steps == [] then w
    else
      StepInv(form, w, steps[0]);
      Run(form, Apply(form, w, steps[0]), steps[1..])
  }

  /** Whatever the interleaving of senders, connects, disconnects and send threads, through all their exits: a
      message's count is its creators' holds plus its places in all queues and batches, it is deleted exactly
      once and exactly when creators and queues have all dropped it; every client's accepted messages are each
      in one place in their order; and what reached its socket is a subsequence of them. */
  lemma EveryRunCountsAndOrders<C, M>(form: Form, steps: seq<Step<C, M>>)
    requires ValidRun(form, Empty<C, M>(), steps)
    ensures var w := Run(form, Empty<C, M>(), steps);
      && (forall m :: m in w.counts.refs ==> w.counts.refs[m] == w.hold[m] + Load(w.order, w.clients)[m])
      && Distinct(w.counts.freed)
      && (forall m :: m in w.counts.refs ==>
            (m in w.counts.freed <==> m !in w.hold && forall c :: c in w.order ==> m !in Queue(w.clients[c])))
      && (forall c :: c in w.clients ==>
            var s := w.clients[c];
            && s.accepted == Firsts(s.log) + s.batch + s.pending + s.cleared
            && Subsequence(Handed(s.log), s.accepted))
  {
    var w := Run(form, Empty<C, M>(), steps);
    forall m | m in w.counts.refs
      ensures m in w.counts.freed <==> m !in w.hold && forall c :: c in w.order ==> m !in Queue(w.clients[c])
    {
      LoadMembers(w.order, w.clients, m);
    }
    forall c | c in w.clients
      ensures var s := w.clients[c];
        && s.accepted == Firsts(s.log) + s.batch + s.pending + s.cleared
        && Subsequence(Handed(s.log), s.accepted)
    {
      assert Sane(w, c);
      HandedInOrder(w.clients[c]);
    }
  }

  /** What decides over a client: whether its thread's reference was overwritten, whether its thread has still to
      begin, whether it is connected. */
  ghost predicate Decided<C, M>(w: World<C, M>, c: C, early: bool, starting: bool, listed: bool) {
    c in w.clients && w.clients[c].early == early && (w.clients[c].phase == Starting) == starting
    && w.clients[c].listed == listed
  }

  /** One client changes. */
  lemma ChangeDecides<C, M>(w: World<C, M>, u: World<C, M>, d: C, s: ClientState<M>, c: C)
    requires c in w.clients && d in w.clients && u.clients == w.clients[d := s] && s.early == w.clients[d].early
    ensures d != c ==> Decided(u, c, w.clients[c].early, w.clients[c].phase == Starting, w.clients[c].listed)
    ensures Decided(u, d, w.clients[d].early, s.phase == Starting, s.listed)
  {}

  lemma BroadcastDecides<C, M>(w: World<C, M>, m: M, starved: set<C>, c: C)
    requires Inv(w) && m in w.hold && c in w.clients
    ensures Decided(Sent(w, m, starved), c, w.clients[c].early, w.clients[c].phase == Starting, w.clients[c].listed)
  {
    SendAllReaches(w, w.listed, m, starved);
  }

  lemma StepDecides<C, M>(form: Form, w: World<C, M>, s: Step<C, M>, c: C)
    requires Inv(w) && Enabled(w, s) && c in w.clients
    ensures var before := w.clients[c];
      Decided(Apply(form, w, s), c, before.early, before.phase == Starting && s != StartStep(c),
              before.listed && s != DisconnectStep(c))
  {
    match s
    case CreateStep(_, _) =>
    case BroadcastStep(m, starved) => BroadcastDecides(w, m, starved, c);
    case SendStep(d, m, memory) =>
      if SentTo(w, d, m, memory) != w {
        ChangeDecides(w, SentTo(w, d, m, memory), d, Enqueue(w.clients[d], m), c);
      }
    case DropStep(_) =>
    case ConnectStep(d, _) =>
    case MaskStep(d, mask) => ChangeDecides(w, Masked(w, d, mask), d, w.clients[d].(mask := mask), c);
    case DisconnectStep(d) => ChangeDecides(w, Disconnect(w, d), d, Buried(Unlist(w.clients[d])), c);
    case _ => ThreadStepDecides(form, w, s, c);
  }

  /** A client whose thread is past its beginning. */
  lemma MovingDecides<C, M>(w: World<C, M>, u: World<C, M>, d: C, s: ClientState<M>, c: C)
    requires c in w.clients && d in w.clients && u.clients == w.clients[d := s]
    requires s.early == w.clients[d].early && s.listed == w.clients[d].listed
    requires w.clients[d].phase != Starting && s.phase != Starting
    ensures Decided(u, c, w.clients[c].early, w.clients[c].phase == Starting, w.clients[c].listed)
  {}

  lemma ThreadStepDecides<C, M>(form: Form, w: World<C, M>, s: Step<C, M>, c: C)
    requires Inv(w) && Enabled(w, s) && OfThread(s) && c in w.clients
    ensures var before := w.clients[c];
      Decided(ThreadStep(form, w, s), c, before.early, before.phase == Starting && s != StartStep(c), before.listed)
  {
    var u := ThreadStep(form, w, s);
    assert Sane(w, s.c);
    match s
    case StartStep(d) => ChangeDecides(w, u, d, Started(w.clients[d]), c);
    case DetachStep(d) => MovingDecides(w, u, d, Detach(w.clients[d]), c);
    case TryStep(d, spaces, enqueued) => MovingDecides(w, u, d, u.clients[d], c);
    case PopStep(d) => MovingDecides(w, u, d, Pop(w.clients[d]), c);
    case FinishStep(d) => MovingDecides(w, u, d, Finish(w.clients[d]), c);
    case WakeExitStep(d) => MovingDecides(w, u, d, Buried(LeaveThread(w.clients[d])), c);
    case ClearExitStep(d) => MovingDecides(w, u, d, Buried(LeaveThread(ClearBatch(w.clients[d]))), c);
  }

  lemma MemberSplit<T>(s: seq<T>, x: T)
    requires s != []
    ensures x in s <==> x == s[0] || x in s[1..]
  {}

  /** The way from a connected client to the end of a run. */
  lemma {:induction false} RunDecides<C, M>(form: Form, w: World<C, M>, steps: seq<Step<C, M>>, c: C)
    requires Inv(w) && ValidRun(form, w, steps) && c in w.clients
    ensures var before := w.clients[c];
      Decided(Run(form, w, steps), c, before.early, before.phase == Starting && StartStep(c) !in steps,
              before.listed && DisconnectStep(c) !in steps)
    decreases |steps|
  {
    if steps != [] {
      var s, rest := steps[0], steps[1..];
      MemberSplit(steps, StartStep(c));
      MemberSplit(steps, DisconnectStep(c));
      StepInv(form, w, s);
      StepDecides(form, w, s, c);
      RunDecides(form, Apply(form, w, s), rest, c);
    }
  }

  /** A client is deleted while its send thread has still to run exactly when it has disconnected, as written, and the
      thread's `Retain` came before the count was stored, or has not come at all. */
  lemma DeletedUnderThread<C, M>(form: Form, w: World<C, M>, c: C, retainFirst: bool, steps: seq<Step<C, M>>)
    requires Inv(w) && Enabled(w, ConnectStep(c, retainFirst))
    requires Inv(Joined(form, w, c, retainFirst)) && ValidRun(form, Joined(form, w, c, retainFirst), steps)
    ensures var u := Run(form, Joined(form, w, c, retainFirst), steps);
      && c in u.clients
      && (u.clients[c].references == 0 && u.clients[c].phase != Gone <==>
            form == AsWritten && DisconnectStep(c) in steps && (retainFirst || StartStep(c) !in steps))
  {
    RunDecides(form, Joined(form, w, c, retainFirst), steps, c);
    assert Sane(Run(form, Joined(form, w, c, retainFirst), steps), c);
  }

  /** The reference of every send thread is counted. */
  ghost predicate ThreadsCounted<C, M>(clients: map<C, ClientState<M>>) {
    forall c :: c in clients ==> !clients[c].early && clients[c].phase != Starting
  }

  /** Corrected, no client is ever deleted under its thread. */
  lemma CorrectedThreadsCounted<C, M>(w: World<C, M>, steps: seq<Step<C, M>>)
    requires Inv(w) && ValidRun(Corrected, w, steps) && ThreadsCounted(w.clients)
    ensures var u := Run(Corrected, w, steps);
      && ThreadsCounted(u.clients)
      && forall c :: c in u.clients && u.clients[c].references == 0 ==> u.clients[c].phase == Gone
  {
    RunCounted(w, steps);
    var u := Run(Corrected, w, steps);
    forall c | c in u.clients && u.clients[c].references == 0
      ensures u.clients[c].phase == Gone
    {
      assert Sane(u, c);
    }
  }

  lemma {:induction false} RunCounted<C, M>(w: World<C, M>, steps: seq<Step<C, M>>)
    requires Inv(w) && ValidRun(Corrected, w, steps) && ThreadsCounted(w.clients)
    ensures ThreadsCounted(Run(Corrected, w, steps).clients)
    decreases |steps|
  {
    if steps != [] {
      StepInv(Corrected, w, steps[0]);
      StepCounted(w, steps[0]);
      RunCounted(Apply(Corrected, w, steps[0]), steps[1..]);
    }
  }

  lemma OneCounted<C, M>(clients: map<C, ClientState<M>>, c: C, s: ClientState<M>)
    requires ThreadsCounted(clients) && !s.early && s.phase != Starting
    ensures ThreadsCounted(clients[c := s])
  {}

  lemma StepCounted<C, M>(w: World<C, M>, s: Step<C, M>)
    requires Inv(w) && Enabled(w, s) && ThreadsCounted(w.clients)
    ensures ThreadsCounted(Apply(Corrected, w, s).clients)
  {
    match s
    case CreateStep(_, _) =>
    case DropStep(_) =>
    case BroadcastStep(m, starved) =>
      BroadcastInv(w, m, starved);
      SendAllCounted(w, w.listed, m, starved);
    case ConnectStep(c, retainFirst) => OneCounted(w.clients, c, Connected(Corrected, retainFirst));
    case SendStep(c, m, memory) => OneCounted(w.clients, c, Enqueue(w.clients[c], m));
    case MaskStep(c, mask) => OneCounted(w.clients, c, w.clients[c].(mask := mask));
    case DisconnectStep(c) => OneCounted(w.clients, c, Buried(Unlist(w.clients[c])));
    case _ => ThreadStepCounted(w, s);
  }

  lemma ThreadStepCounted<C, M>(w: World<C, M>, s: Step<C, M>)
    requires Inv(w) && Enabled(w, s) && OfThread(s) && ThreadsCounted(w.clients)
    ensures ThreadsCounted(ThreadStep(Corrected, w, s).clients)
  {
    match s
    case StartStep(c) =>
    case DetachStep(c) => OneCounted(w.clients, c, Detach(w.clients[c]));
    case TryStep(c, spaces, enqueued) => OneCounted(w.clients, c, ThreadStep(Corrected, w, s).clients[c]);
    case PopStep(c) =>
      assert Sane(w, c);
      OneCounted(w.clients, c, Pop(w.clients[c]));
    case FinishStep(c) => OneCounted(w.clients, c, Finish(w.clients[c]));
    case WakeExitStep(c) => OneCounted(w.clients, c, Buried(LeaveThread(w.clients[c])));
    case ClearExitStep(c) => OneCounted(w.clients, c, Buried(LeaveThread(ClearBatch(w.clients[c]))));
  }

  lemma {:induction false} SendAllCounted<C, M>(w: World<C, M>, cs: seq<C>, m: M, starved: set<C>)
    requires m in w.raw && m in w.counts.refs && forall c :: c in cs ==> c in w.clients
    requires ThreadsCounted(w.clients)
    ensures ThreadsCounted(SendAll(w, cs, m, starved).clients)
    decreases |cs|
  {
    if cs != [] {
      OneCounted(w.clients, cs[0], Enqueue(w.clients[cs[0]], m));
      SendAllCounted(SendOne(w, cs[0], m, cs[0] !in starved), cs[1..], m, starved);
    }
  }

  /** The two races as written: whether the thread's `Retain` comes too early or too late, a disconnect deletes the
      client under its thread; only a `Retain` in between keeps it. */
  lemma StartRace()
    ensures var s: ClientState<int> := Connected(AsWritten, true);
      ClientInv(s) && Unlist(s).references == 0 && Unlist(s).phase == Waiting
    ensures var s: ClientState<int> := Connected(AsWritten, false);
      && ClientInv(s) && Unlist(s).references == 0 && Unlist(s).phase == Starting
      && ClientInv(Started(s)) && Unlist(Started(s)).references == 1
  {}
}
