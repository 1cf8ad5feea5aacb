/** How the clients of `Fanout` appear in `Protocol`: one record per listed client, with its mask and the contents of
    the messages accepted for it.  Sending, subscribing, connecting and disconnecting there are the same here. */
module Records {
  import opened Common
  import opened References
  import opened Messages
  import opened ClientsHeap
  import F = Fanout
  import opened Protocol

  type World = F.World<Client, Message>

  function Raws(messages: seq<Message>): (r: seq<Raw>)
    ensures |r| == |messages|
    ensures forall i :: 0 <= i < |r| ==> r[i] == messages[i].raw
  {
    seq(|messages|, i requires 0 <= i < |messages| => messages[i].raw)
  }

  function RecordOf(c: Client, s: F.ClientState<Message>): ClientRecord {
    ClientRecord(c.unit, s.mask, Raws(s.accepted))
  }

  /** The listed clients are known. */
  predicate Present(w: World) {
    forall c :: c in w.listed ==> c in w.clients
  }

  function Records(w: World): (r: seq<ClientRecord>)
    requires Present(w)
    ensures |r| == |w.listed|
    ensures forall i :: 0 <= i < |r| ==> r[i] == RecordOf(w.listed[i], w.clients[w.listed[i]])
  {
    seq(|w.listed|, i requires 0 <= i < |w.listed| => RecordOf(w.listed[i], w.clients[w.listed[i]]))
  }

  ghost predicate DistinctUnits(listed: seq<Client>) {
    forall i, j :: 0 <= i < j < |listed| ==> listed[i].unit != listed[j].unit
  }

  lemma DistinctWith(listed: seq<Client>, unit: int)
    requires DistinctUnits(listed) && forall c :: c in listed ==> c.unit != unit
    ensures forall c: Client :: c.unit == unit ==> DistinctUnits([c] + listed)
  {}

  lemma DistinctWithout(listed: seq<Client>, i: nat)
    requires DistinctUnits(listed) && i < |listed|
    ensures DistinctUnits(RemoveAt(listed, i))
  {}

  /** The names of the messages are those of their objects. */
  predicate Named(w: World) {
    forall m :: m in w.raw ==> w.raw[m] == m.raw
  }

  lemma InvPresent(w: World)
    requires F.Inv(w)
    ensures Present(w) && Distinct(w.listed)
    ensures forall c :: c in w.listed ==> !w.clients[c].exit
  {
    forall c | c in w.listed
      ensures !w.clients[c].exit
    {
      assert F.Sane(w, c);
    }
  }

  lemma NobodyYet()
    ensures F.Inv(F.Empty<Client, Message>()) && Present(F.Empty()) && DistinctUnits(F.Empty<Client, Message>().listed)
    ensures Records(F.Empty()) == []
  {}

  lemma EnqueueRecord(c: Client, s: F.ClientState<Message>, m: Message)
    ensures RecordOf(c, F.Enqueue(s, m)) == RecordOf(c, s).(inbox := RecordOf(c, s).inbox + [m.raw])
  {
    assert Raws(s.accepted + [m]) == Raws(s.accepted) + [m.raw];
  }

  /** `Client::Send` with memory for the node is `Deliver`. */
  lemma DeliverRecord(c: Client, s: F.ClientState<Message>, m: Message)
    requires !s.exit
    ensures RecordOf(c, if F.Accepts(s, m.raw.kind, true) then F.Enqueue(s, m) else s)
         == Protocol.Deliver(RecordOf(c, s), m.raw)
  {
    EnqueueRecord(c, s, m);
  }

  lemma SentRecords(w: World, m: Message)
    requires Present(w) && Distinct(w.listed) && Named(w) && m in w.raw && m in w.counts.refs
    requires forall c :: c in w.listed ==> !w.clients[c].exit
    ensures var u := F.SendAll(w, w.listed, m, {});
      Present(u) && u.listed == w.listed && u.raw == w.raw && Records(u) == DeliverAll(Records(w), m.raw)
  {
    F.SendAllReaches(w, w.listed, m, {});
    var u := F.SendAll(w, w.listed, m, {});
    forall i | 0 <= i < |w.listed|
      ensures Records(u)[i] == Protocol.Deliver(Records(w)[i], m.raw)
    {
      DeliverRecord(w.listed[i], w.clients[w.listed[i]], m);
    }
  }

  /** One listed client changes. */
  lemma ChangedRecords(w: World, u: World, i: nat, s: F.ClientState<Message>)
    requires Present(w) && Distinct(w.listed) && i < |w.listed|
    requires u.listed == w.listed && u.clients == w.clients[w.listed[i] := s]
    ensures Present(u) && Records(u) == Records(w)[i := RecordOf(w.listed[i], s)]
  {}

  lemma AnsweredRecords(w: World, i: nat, m: Message)
    requires Present(w) && Distinct(w.listed) && Named(w) && i < |w.listed| && m in w.raw && m in w.counts.refs
    requires !w.clients[w.listed[i]].exit
    ensures var u := F.SendOne(w, w.listed[i], m, true);
      Present(u) && u.listed == w.listed && u.raw == w.raw
      && Records(u) == Answered(Records(w), i, m.raw)
  {
    var c := w.listed[i];
    F.SendOneParts(w, c, m, true);
    DeliverRecord(c, w.clients[c], m);
    ChangedRecords(w, F.SendOne(w, c, m, true), i, F.SendOne(w, c, m, true).clients[c]);
  }

  lemma JoinedRecords(form: Form, w: World, c: Client, retainFirst: bool)
    requires Present(w) && c !in w.clients
    ensures var u := F.Joined(form, w, c, retainFirst);
      Present(u) && Records(u) == [ClientRecord(c.unit, INITIAL_CLASSES, [])] + Records(w)
  {}

  lemma PartedRecords(w: World, u: World, i: nat, s: F.ClientState<Message>)
    requires Present(w) && Distinct(w.listed) && i < |w.listed|
    requires u.listed == RemoveAt(w.listed, i) && u.clients == w.clients[w.listed[i] := s]
    ensures Present(u) && Records(u) == RemoveAt(Records(w), i)
  {
    RemoveAtMembers(w.listed, i);
    assert forall c :: c in u.listed ==> c in ToSet(u.listed);
  }

  /** A listed client is found by its unit. */
  lemma FoundByUnit(w: World, i: nat)
    requires Present(w) && DistinctUnits(w.listed) && i < |w.listed|
    ensures Find(Records(w), w.listed[i].unit) == i
  {
    var k := Find(Records(w), w.listed[i].unit);
    assert Records(w)[i].unit == w.listed[i].unit;
  }

  // ---------------------------------------------------------------- a message from its creation to its release

  /** Nothing any client sees depends on who holds a message. */
  lemma SameRecords(w: World, u: World)
    requires Present(w) && u.listed == w.listed && u.clients == w.clients
    ensures Present(u) && Records(u) == Records(w)
  {}

  lemma MakesMessage(w: World, m: Message)
    requires F.Inv(w) && m !in w.counts.refs && Named(w)
    ensures var u := F.Created(w, m, m.raw);
      && F.Inv(u) && Named(u) && m in u.hold && m in u.raw && m in u.counts.refs && m !in u.counts.freed
      && Present(w) && Present(u) && u.listed == w.listed && Records(u) == Records(w)
  {
    F.CreateInv(w, m, m.raw);
    InvPresent(w);
    SameRecords(w, F.Created(w, m, m.raw));
    F.HeldIsThere(F.Created(w, m, m.raw), m);
  }

  lemma SendsToAll(w: World, m: Message)
    requires F.Inv(w) && Named(w) && m in w.hold
    ensures m in w.raw && m in w.counts.refs && m !in w.counts.freed && Present(w)
    ensures var u := F.SendAll(w, w.listed, m, {});
      && F.Inv(u) && Named(u) && m in u.hold && m in u.counts.refs && m !in u.counts.freed
      && Present(u) && u.listed == w.listed && Records(u) == DeliverAll(Records(w), m.raw)
      && u.clients.Keys == w.clients.Keys && u.counts.refs.Keys == w.counts.refs.Keys
  {
    F.HeldIsThere(w, m);
    InvPresent(w);
    F.BroadcastInv(w, m, {});
    SentRecords(w, m);
    SentHold(w, w.listed, m);
    F.HeldIsThere(F.SendAll(w, w.listed, m, {}), m);
  }

  lemma {:induction false} SentHold(w: World, cs: seq<Client>, m: Message)
    requires m in w.raw && m in w.counts.refs && forall c :: c in cs ==> c in w.clients
    ensures var u := F.SendAll(w, cs, m, {});
      u.hold == w.hold && u.counts.refs.Keys == w.counts.refs.Keys && u.clients.Keys == w.clients.Keys
    decreases |cs|
  {
    if cs != [] {
      SentHold(F.SendOne(w, cs[0], m, cs[0] !in {}), cs[1..], m);
    }
  }

  /** One record gets an answer. */
  function Answered(records: seq<ClientRecord>, i: nat, raw: Raw): (r: seq<ClientRecord>)
    requires i < |records|
    ensures |r| == |records|
  {
    records[i := Protocol.Deliver(records[i], raw)]
  }

  lemma OneKept(w: World, c: Client, m: Message)
    requires c in w.clients && m in w.raw && m in w.counts.refs
    ensures var u := F.SendOne(w, c, m, true);
      && u.hold == w.hold && u.clients.Keys == w.clients.Keys && u.counts.refs.Keys == w.counts.refs.Keys
      && u.counts.freed == w.counts.freed && u.raw == w.raw
  {}

  lemma SendsToOne(w: World, i: nat, m: Message)
    requires F.Inv(w) && Named(w) && m in w.hold && i < |w.listed|
    ensures m in w.raw && m in w.counts.refs && m !in w.counts.freed && Present(w)
    ensures var u := F.SendOne(w, w.listed[i], m, true);
      && F.Inv(u) && Named(u) && m in u.hold && m in u.counts.refs && m !in u.counts.freed
      && Present(u) && u.listed == w.listed && Records(u) == Answered(Records(w), i, m.raw)
      && u.clients.Keys == w.clients.Keys && u.counts.refs.Keys == w.counts.refs.Keys
  {
    F.HeldIsThere(w, m);
    InvPresent(w);
    F.BroadcastOneInv(w, w.listed[i], m, true);
    AnsweredRecords(w, i, m);
    OneKept(w, w.listed[i], m);
  }

  lemma GivesBack(w: World, m: Message)
    requires F.Inv(w) && m in w.hold && m in w.counts.refs && Present(w)
    ensures var u := F.GivenBack(w, m);
      F.Inv(u) && Present(u) && u.listed == w.listed && Records(u) == Records(w)
  {
    F.DropHoldInv(w, m);
    SameRecords(w, F.GivenBack(w, m));
  }
}
