/** Which messages reach which clients, in terms of the bits of the types and masks (Kext/client.cpp:142-149 and
    276-288): over every run a client only gets what its mask asked for. */
module ClassLaws {
  import opened Common
  import opened Messages
  import RT = RuleTable
  import opened Protocol
  import opened ProtocolLaws
  import opened Replay

  /** The bits and answer types of the three topics, as the numbers of Shared/messageType.h:10-12 and 50-58. */
  lemma TopicCodes()
    ensures Value({TopicBit(ProviderOfRules)}) == 0x0400
    ensures Value({TopicBit(InfoRules)}) == 0x0100 && Value({TopicBit(InfoSockets)}) == 0x0200
    ensures Value(SubscribeKind(ProviderOfRules)) == 0x0803 && Value(UnsubscribeKind(ProviderOfRules)) == 0x0804
    ensures Value(SubscribeKind(InfoRules)) == 0x0805 && Value(UnsubscribeKind(InfoRules)) == 0x0806
    ensures Value(SubscribeKind(InfoSockets)) == 0x0807 && Value(UnsubscribeKind(InfoSockets)) == 0x0808
    ensures Value(DeactivatedKind(AsWritten)) == 0x0801 && Value(DeactivatedKind(Corrected)) == 0x0802
  {
    ClassCodes();
    FirewallTypeCodes();
    InfoRuleTypeCodes();
    InfoSocketTypeCodes();
  }

  /** No two of the six subscription answers have the same type. */
  lemma AnswerTypesDiffer(t: Topic, s: Topic)
    ensures SubscribeKind(t) != UnsubscribeKind(s)
    ensures t != s ==> SubscribeKind(t) != SubscribeKind(s) && UnsubscribeKind(t) != UnsubscribeKind(s)
  {
    assert 0 in SUBSCRIBED_AS_PROVIDER && 1 in SUBSCRIBED_AS_PROVIDER && 2 !in SUBSCRIBED_AS_PROVIDER;
    assert 0 in SUBSCRIBED_TO_INFO_RULES && 1 !in SUBSCRIBED_TO_INFO_RULES && 2 in SUBSCRIBED_TO_INFO_RULES;
    assert 0 in SUBSCRIBED_TO_INFO_SOCKETS && 1 in SUBSCRIBED_TO_INFO_SOCKETS && 2 in SUBSCRIBED_TO_INFO_SOCKETS;
    assert 0 !in UNSUBSCRIBED_AS_PROVIDER && 1 !in UNSUBSCRIBED_AS_PROVIDER && 2 in UNSUBSCRIBED_AS_PROVIDER;
    assert 0 !in UNSUBSCRIBED_FROM_INFO_RULES && 1 in UNSUBSCRIBED_FROM_INFO_RULES;
    assert 0 !in UNSUBSCRIBED_FROM_INFO_SOCKETS && 2 !in UNSUBSCRIBED_FROM_INFO_SOCKETS;
  }

  // ---------------------------------------------------------------- one event

  /** A client has taken at most one message: it has one class, and a bit in common with the client's mask. */
  ghost predicate Took(c: ClientRecord, d: ClientRecord) {
    && d.unit == c.unit
    && (d.inbox == c.inbox
        || exists m: Raw :: d.inbox == c.inbox + [m] && OneClass(m.kind) && exists b :: b in m.kind && b in d.mask)
  }

  ghost predicate AllTook(a: seq<ClientRecord>, b: seq<ClientRecord>) {
    |b| == |a| && forall k :: 0 <= k < |a| ==> Took(a[k], b[k])
  }

  lemma DeliverTook(c: ClientRecord, d: ClientRecord, message: Raw)
    requires OneClass(message.kind) && d.unit == c.unit && d.inbox == c.inbox
    ensures Took(c, Deliver(d, message))
  {
    WantedExactly(message.kind, d.mask);
  }

  lemma BroadcastTook<R>(fw: Firewall<R>, u: Firewall<R>, message: Raw)
    requires OneClass(message.kind) && u.clients == fw.clients
    ensures AllTook(fw.clients, Broadcast(u, message).clients)
  {
    forall k | 0 <= k < |fw.clients|
      ensures Took(fw.clients[k], Broadcast(u, message).clients[k])
    {
      DeliverTook(fw.clients[k], fw.clients[k], message);
    }
  }

  lemma AnswerTook<R>(fw: Firewall<R>, u: Firewall<R>, i: nat, mask: Word, message: Raw)
    requires OneClass(message.kind) && i < |fw.clients|
    requires u.clients == fw.clients[i := fw.clients[i].(mask := mask)]
    ensures AllTook(fw.clients, Protocol.Answer(u, i, message).clients)
  {
    DeliverTook(fw.clients[i], u.clients[i], message);
  }

  lemma ReplyTook<R>(fw: Firewall<R>, u: Firewall<R>, i: nat, result: int, failure: int, kind: Word, messageId: int,
                     ruleId: int)
    requires OneClass(kind) && i < |fw.clients| && u.clients == fw.clients
    ensures AllTook(fw.clients, Reply(u, i, result, failure, kind, messageId, ruleId).clients)
  {
    var unit, mask := fw.clients[i].unit, fw.clients[i].mask;
    assert fw.clients == fw.clients[i := fw.clients[i].(mask := mask)];
    BroadcastTook(fw, u, RuleAnswer(kind, unit, messageId, 0, ruleId));
    AnswerTook(fw, u, i, mask, RuleAnswer(kind, unit, messageId, ACTION_FAILED, ruleId));
    AnswerTook(fw, u, i, mask, RuleAnswer(kind, unit, messageId, 1, ruleId));
  }

  lemma SwitchTook<R>(fw: Firewall<R>, i: nat, messageId: int, up: bool, kind: Word)
    requires OneClass(kind) && i < |fw.clients|
    ensures AllTook(fw.clients, ExecuteSwitch(fw, i, messageId, up, kind).clients)
  {
    var unit, mask := fw.clients[i].unit, fw.clients[i].mask;
    assert fw.clients == fw.clients[i := fw.clients[i].(mask := mask)];
    BroadcastTook(fw, fw.(up := up), PlainAnswer(kind, unit, messageId, 0));
    AnswerTook(fw, fw, i, mask, PlainAnswer(kind, unit, messageId, 1));
  }

  lemma MaskTook<R>(fw: Firewall<R>, i: nat, messageId: int, topic: Topic, mask: Word, success: bool, change: int,
                    kind: Word)
    requires OneClass(kind) && i < |fw.clients|
    ensures AllTook(fw.clients, ExecuteMask(fw, i, messageId, topic, mask, success, change, kind).clients)
  {
    var changed := fw.(clients := fw.clients[i := fw.clients[i].(mask := mask)]);
    var counted := if success then Count(changed, topic, change) else changed;
    AnswerTook(fw, counted, i, mask, PlainAnswer(kind, fw.clients[i].unit, messageId, if success then 0 else 1));
  }

  /** Whatever a command puts into an inbox has a bit of the mask the client has then. */
  lemma ExecuteTook<R>(form: Form, fw: Firewall<R>, i: nat, command: Command, supply: Supply<R>)
    requires i < |fw.clients| && RT.Known(fw.rules)
    requires supply.node.Some? ==> supply.node.value !in fw.rules.counts.refs
    ensures AllTook(fw.clients, Execute(form, fw, i, command, supply).clients)
  {
    if supply.memory {
      match command
      case DeleteRule(m, id) =>
        var (rules, result) := RT.DeleteRule(form, fw.rules, id, supply.now);
        ReplyTook(fw, fw.(rules := rules), i, result, 1, RULE_DELETED, m, id);
      case AddRule(data, state) =>
        var (rules, result) := RT.AddReleased(form, fw.rules, supply.node, data, state, supply.now);
        ReplyTook(fw, fw.(rules := rules), i, result, -1, RULE_ADDED, data.id, 0);
      case ActivateRule(m, id) =>
        var (rules, result) := RT.ActivateRule(fw.rules, id, supply.now);
        ReplyTook(fw, fw.(rules := rules), i, result, -1, RULE_ACTIVATED, m, id);
      case DeactivateRule(m, id) =>
        var (rules, result) := RT.DeactivateRule(form, fw.rules, id, supply.now);
        ReplyTook(fw, fw.(rules := rules), i, result, -1, RULE_DEACTIVATED, m, id);
      case ActivateFirewall(m) => SwitchTook(fw, i, m, true, FIREWALL_ACTIVATED);
      case DeactivateFirewall(m) => SwitchTook(fw, i, m, false, DeactivatedKind(form));
      case Subscribe(m, topic) =>
        var (mask, success) := Register(form, fw.clients[i].mask, TopicBit(topic));
        MaskTook(fw, i, m, topic, mask, success, 1, SubscribeKind(topic));
      case Unsubscribe(m, topic) =>
        var (mask, success) := Unregister(form, fw.clients[i].mask, TopicBit(topic));
        MaskTook(fw, i, m, topic, mask, success, -1, UnsubscribeKind(topic));
      case Unknown =>
    }
  }

  /** Every event, in either form, gives a client that stays at most one message, and that one has a bit of the mask
      the client has then. */
  lemma EventTook<R>(form: Form, fw: Firewall<R>, e: Event<R>, unit: int)
    requires RT.Inv(fw.rules) && Enabled(fw, e) && e != DisconnectEvent(unit) && Find(fw.clients, unit) < |fw.clients|
    ensures var u := Apply(form, fw, e);
      Find(u.clients, unit) < |u.clients| && Took(Record(fw, unit), Record(u, unit))
  {
    var u := Apply(form, fw, e);
    match e
    case ConnectEvent(other) => assert u.clients[1..] == fw.clients;
    case DisconnectEvent(other) => FindRemove(fw.clients, Find(fw.clients, other), unit);
    case CommandEvent(other, command, supply) =>
      RT.InvKnown(fw.rules);
      ExecuteTook(form, fw, Find(fw.clients, other), command, supply);
      FindSame(fw.clients, u.clients, unit);
  }

  /** A bit of the sender's mask after a command, by the command's effect on that bit alone. */
  predicate BitAfter(form: Form, command: Command, before: bool, b: BitIndex) {
    if command.Subscribe? then before || b == TopicBit(command.topic)
    else if command.Unsubscribe? then
      if form == AsWritten then before || b != TopicBit(command.topic) else before && b != TopicBit(command.topic)
    else before
  }

  lemma MaskOnly<R>(fw: Firewall<R>, i: nat, j: nat, messageId: int, topic: Topic, mask: Word, success: bool,
                    change: int, kind: Word)
    requires i < |fw.clients| && j < |fw.clients|
    ensures var u := ExecuteMask(fw, i, messageId, topic, mask, success, change, kind);
      |u.clients| == |fw.clients| && u.clients[j].mask == if j == i then mask else fw.clients[j].mask
  {}

  /** What a command does to the masks: a subscription adds the topic's bit to the sender's and no other; an
      unsubscription, corrected, takes away the topic's bit and no other, and as written adds every other one; nothing
      else changes a mask. */
  lemma CommandMasks<R>(form: Form, fw: Firewall<R>, i: nat, j: nat, command: Command, supply: Supply<R>, b: BitIndex)
    requires i < |fw.clients| && j < |fw.clients| && RT.Known(fw.rules)
    requires supply.node.Some? ==> supply.node.value !in fw.rules.counts.refs
    ensures var u := Execute(form, fw, i, command, supply);
      && |u.clients| == |fw.clients|
      && (b in u.clients[j].mask <==>
            if j == i && supply.memory then BitAfter(form, command, b in fw.clients[j].mask, b)
            else b in fw.clients[j].mask)
  {
    match command
    case Subscribe(m, topic) =>
      var (mask, success) := Register(form, fw.clients[i].mask, TopicBit(topic));
      MaskOnly(fw, i, j, m, topic, mask, success, 1, SubscribeKind(topic));
    case Unsubscribe(m, topic) =>
      var (mask, success) := Unregister(form, fw.clients[i].mask, TopicBit(topic));
      MaskOnly(fw, i, j, m, topic, mask, success, -1, UnsubscribeKind(topic));
    case _ => ExecuteQuiet(form, fw, i, command, supply);
  }

  // ---------------------------------------------------------------- whole runs

  /** The mask has classes only, and not the topic's. */
  predicate Deaf(mask: Word, topic: Topic) {
    TopicBit(topic) !in mask && forall b :: b in mask ==> b >= 8
  }

  /** The unit does not ask for the topic, and as written does not unsubscribe from anything either. */
  predicate Uninterested<R>(form: Form, e: Event<R>, unit: int, topic: Topic) {
    && e != DisconnectEvent(unit)
    && (e.CommandEvent? && e.unit == unit ==>
          && !(e.command.Subscribe? && e.command.topic == topic)
          && (form == AsWritten ==> !e.command.Unsubscribe?))
  }

  lemma MaskAfter<R>(form: Form, fw: Firewall<R>, i: nat, j: nat, command: Command, supply: Supply<R>, topic: Topic)
    requires i < |fw.clients| && j < |fw.clients| && RT.Known(fw.rules) && Deaf(fw.clients[j].mask, topic)
    requires supply.node.Some? ==> supply.node.value !in fw.rules.counts.refs
    requires i == j ==> !(command.Subscribe? && command.topic == topic)
    requires i == j && form == AsWritten ==> !command.Unsubscribe?
    ensures var u := Execute(form, fw, i, command, supply);
      |u.clients| == |fw.clients| && Deaf(u.clients[j].mask, topic)
  {
    if !command.Subscribe? && !command.Unsubscribe? {
      ExecuteQuiet(form, fw, i, command, supply);
    }
  }

  lemma StaysDeaf<R>(form: Form, fw: Firewall<R>, e: Event<R>, unit: int, topic: Topic)
    requires RT.Inv(fw.rules) && Enabled(fw, e) && Uninterested(form, e, unit, topic)
    requires Find(fw.clients, unit) < |fw.clients| && Deaf(Record(fw, unit).mask, topic)
    ensures var u := Apply(form, fw, e);
      Find(u.clients, unit) < |u.clients| && Deaf(Record(u, unit).mask, topic)
  {
    var u := Apply(form, fw, e);
    match e
    case ConnectEvent(other) => assert u.clients[1..] == fw.clients;
    case DisconnectEvent(other) => FindRemove(fw.clients, Find(fw.clients, other), unit);
    case CommandEvent(other, command, supply) =>
      RT.InvKnown(fw.rules);
      UnitsKept(form, fw, Find(fw.clients, other), command, supply);
      FindSame(fw.clients, u.clients, unit);
      MaskAfter(form, fw, Find(fw.clients, other), Find(fw.clients, unit), command, supply, topic);
  }

  /** What a deaf client takes is not of the topic. */
  lemma TookNothing(c: ClientRecord, d: ClientRecord, topic: Topic)
    requires Took(c, d) && Deaf(d.mask, topic)
    ensures c.inbox <= d.inbox && forall m :: m in d.inbox[|c.inbox|..] ==> TopicBit(topic) !in m.kind
  {
    if d.inbox != c.inbox {
      var m: Raw :| d.inbox == c.inbox + [m] && OneClass(m.kind) && exists b :: b in m.kind && b in d.mask;
      var b :| b in m.kind && b in d.mask;
      assert d.inbox[|c.inbox|..] == [m];
    }
  }

  /** A connected client that has not subscribed to a topic, and does not during a run, gets no message of the topic's
      class in it; as written this takes that it does not unsubscribe from anything either, which would set the bits
      of its mask. */
  lemma {:induction false} HearsNothing<R>(form: Form, fw: Firewall<R>, events: seq<Event<R>>, unit: int, topic: Topic)
    requires RT.Inv(fw.rules) && ValidRun(form, fw, events)
    requires Find(fw.clients, unit) < |fw.clients| && Deaf(Record(fw, unit).mask, topic)
    requires forall e :: e in events ==> Uninterested(form, e, unit, topic)
    ensures var u := Run(form, fw, events);
      && Find(u.clients, unit) < |u.clients| && Record(fw, unit).inbox <= Record(u, unit).inbox
      && forall m :: m in Received(fw, u, unit) ==> TopicBit(topic) !in m.kind
    decreases |events|
  {
    if events != [] {
      var e := events[0];
      assert e in events;
      RunStep(form, fw, events);
      StepRules(form, fw, e);
      EventTook(form, fw, e, unit);
      StaysDeaf(form, fw, e, unit, topic);
      var v := Apply(form, fw, e);
      TookNothing(Record(fw, unit), Record(v, unit), topic);
      HearsNothing(form, v, events[1..], unit, topic);
      var u := Run(form, v, events[1..]);
      assert Received(fw, u, unit) == Received(fw, v, unit) + Received(v, u, unit);
    }
  }

  /** A client that has just connected has subscribed to nothing. */
  lemma ConnectedDeaf(topic: Topic)
    ensures Deaf(INITIAL_CLASSES, topic)
  {}

  /** As written a client that unsubscribes from the rule notices, without ever having subscribed, gets them: its mask
      lacks their class, but has the lower bits of their types. */
  lemma HeardWithoutSubscribing()
    ensures var fw := ExecuteUnsubscribe(AsWritten, Connect(Start<int>(), 1), 0, 9, InfoRules);
      var message := RuleAnswer(RULE_ADDED, 2, 7, 0, 0);
      && |fw.clients| == 1 && TopicBit(InfoRules) !in fw.clients[0].mask
      && Broadcast(fw, message).clients[0].inbox == fw.clients[0].inbox + [message]
  {
    var fw := ExecuteUnsubscribe(AsWritten, Connect(Start<int>(), 1), 0, 9, InfoRules);
    assert 0 in RULE_ADDED && 0 in fw.clients[0].mask;
    WantedExactly(RULE_ADDED, fw.clients[0].mask);
  }
}
