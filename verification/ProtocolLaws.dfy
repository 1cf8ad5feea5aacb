/** What the command protocol guarantees over every run, and exactly when the text as written breaks it. */
module ProtocolLaws {
  import opened Common
  import opened Messages
  import opened RuleOrder
  import RT = RuleTable
  import opened Protocol

  // ---------------------------------------------------------------- bits

  /** Every client keeps the two classes it is connected with. */
  predicate Basic(mask: Word) {
    MESSAGE_CLASS_FIREWALL in mask && MESSAGE_CLASS_COMMON in mask
  }

  lemma FirewallKinds(m: Word, t: Topic)
    requires Basic(m)
    ensures Wanted(FIREWALL_ACTIVATED, m) && Wanted(FIREWALL_DEACTIVATED, m)
    ensures Wanted(SubscribeKind(t), m) && Wanted(UnsubscribeKind(t), m)
  {
    assert MESSAGE_CLASS_FIREWALL in FIREWALL_ACTIVATED * m;
    assert MESSAGE_CLASS_FIREWALL in FIREWALL_DEACTIVATED * m;
    assert MESSAGE_CLASS_FIREWALL in SubscribeKind(t) * m;
    assert MESSAGE_CLASS_FIREWALL in UnsubscribeKind(t) * m;
  }

  // ---------------------------------------------------------------- lists

  lemma {:induction false} MasksAt(clients: seq<ClientRecord>)
    ensures forall i :: 0 <= i < |clients| ==>
              Masks(clients)[i] == clients[i].mask && Units(clients)[i] == clients[i].unit
  {
    if clients != [] {
      MasksAt(clients[1..]);
      forall i | 0 <= i < |clients|
        ensures Masks(clients)[i] == clients[i].mask && Units(clients)[i] == clients[i].unit
      {
        if i > 0 { assert clients[i] == clients[1..][i - 1]; }
      }
    }
  }

  /** Sending changes neither masks nor units. */
  lemma SameMasks(a: seq<ClientRecord>, b: seq<ClientRecord>)
    requires |a| == |b| && forall i :: 0 <= i < |a| ==> a[i].mask == b[i].mask && a[i].unit == b[i].unit
    ensures Masks(a) == Masks(b) && Units(a) == Units(b)
  {
    MasksAt(a);
    MasksAt(b);
  }

  lemma {:induction false} CountBitUpdate(masks: seq<Word>, i: nat, m: Word, bit: BitIndex)
    requires i < |masks|
    ensures CountBit(masks[i := m], bit) == CountBit(masks, bit) - Bit(bit in masks[i]) + Bit(bit in m)
  {
    if i == 0 {
      assert masks[0 := m][1..] == masks[1..];
    } else {
      CountBitUpdate(masks[1..], i - 1, m, bit);
      assert masks[i := m][1..] == masks[1..][i - 1 := m];
    }
  }

  lemma {:induction false} CountBitRemove(masks: seq<Word>, i: nat, bit: BitIndex)
    requires i < |masks|
    ensures CountBit(RemoveAt(masks, i), bit) == CountBit(masks, bit) - Bit(bit in masks[i])
  {
    if i == 0 {
      assert RemoveAt(masks, 0) == masks[1..];
    } else {
      CountBitRemove(masks[1..], i - 1, bit);
      assert RemoveAt(masks, i)[1..] == RemoveAt(masks[1..], i - 1);
    }
  }

  lemma {:induction false} MasksRemove(clients: seq<ClientRecord>, i: nat)
    requires i < |clients|
    ensures Masks(RemoveAt(clients, i)) == RemoveAt(Masks(clients), i)
    ensures Units(RemoveAt(clients, i)) == RemoveAt(Units(clients), i)
  {
    if i == 0 {
      assert RemoveAt(clients, 0) == clients[1..];
    } else {
      MasksRemove(clients[1..], i - 1);
      assert RemoveAt(clients, i)[1..] == RemoveAt(clients[1..], i - 1);
    }
  }

  lemma MasksUpdate(clients: seq<ClientRecord>, i: nat, c: ClientRecord)
    requires i < |clients|
    ensures Masks(clients[i := c]) == Masks(clients)[i := c.mask]
    ensures Units(clients[i := c]) == Units(clients)[i := c.unit]
  {
    MasksAt(clients);
    MasksAt(clients[i := c]);
  }

  // ---------------------------------------------------------------- the laws

  /** Each counter is the number of connected clients with the bit, so it is never negative. */
  ghost predicate CounterLaw<R>(fw: Firewall<R>) {
    forall t: Topic :: Counter(fw, t) == CountBit(Masks(fw.clients), TopicBit(t))
  }

  /** The debug counter is the length of the client list, and every client has the two basic classes. */
  ghost predicate DebugLaw<R>(fw: Firewall<R>) {
    && fw.debugCount == |fw.clients|
    && forall i :: 0 <= i < |fw.clients| ==> Basic(fw.clients[i].mask)
  }

  /** The command left masks, units and counters alone. */
  ghost predicate Quiet<R>(fw: Firewall<R>, u: Firewall<R>) {
    && |u.clients| == |fw.clients|
    && (forall i :: 0 <= i < |fw.clients| ==>
          u.clients[i].mask == fw.clients[i].mask && u.clients[i].unit == fw.clients[i].unit)
    && u.debugCount == fw.debugCount
    && u.providers == fw.providers && u.infoRules == fw.infoRules && u.infoSockets == fw.infoSockets
  }

  lemma QuietLaws<R>(fw: Firewall<R>, u: Firewall<R>)
    requires Quiet(fw, u)
    ensures CounterLaw(u) <==> CounterLaw(fw)
    ensures DebugLaw(u) <==> DebugLaw(fw)
  {
    SameMasks(fw.clients, u.clients);
  }

  lemma ReplyQuiet<R>(fw: Firewall<R>, i: nat, result: int, failure: int, kind: Word, messageId: int, ruleId: int)
    requires i < |fw.clients|
    ensures var u := Reply(fw, i, result, failure, kind, messageId, ruleId);
      Quiet(fw, u) && u.rules == fw.rules && u.up == fw.up
  {}

  lemma SwitchQuiet<R>(fw: Firewall<R>, i: nat, messageId: int, up: bool, kind: Word)
    requires i < |fw.clients|
    ensures var u := ExecuteSwitch(fw, i, messageId, up, kind);
      Quiet(fw, u) && u.rules == fw.rules && u.up == up
  {}

  /** All commands but the subscriptions are quiet. */
  lemma ExecuteQuiet<R>(form: Form, fw: Firewall<R>, i: nat, command: Command, supply: Supply<R>)
    requires i < |fw.clients| && RT.Known(fw.rules)
    requires supply.node.Some? ==> supply.node.value !in fw.rules.counts.refs
    requires !command.Subscribe? && !command.Unsubscribe?
    ensures Quiet(fw, Execute(form, fw, i, command, supply))
  {
    match command
    case DeleteRule(messageId, ruleId) =>
      var (rules, result) := RT.DeleteRule(form, fw.rules, ruleId, supply.now);
      ReplyQuiet(fw.(rules := rules), i, result, 1, RULE_DELETED, messageId, ruleId);
    case AddRule(data, state) =>
      var (rules, result) := RT.AddReleased(form, fw.rules, supply.node, data, state, supply.now);
      ReplyQuiet(fw.(rules := rules), i, result, -1, RULE_ADDED, data.id, 0);
    case ActivateRule(messageId, ruleId) =>
      var (rules, result) := RT.ActivateRule(fw.rules, ruleId, supply.now);
      ReplyQuiet(fw.(rules := rules), i, result, -1, RULE_ACTIVATED, messageId, ruleId);
    case DeactivateRule(messageId, ruleId) =>
      var (rules, result) := RT.DeactivateRule(form, fw.rules, ruleId, supply.now);
      ReplyQuiet(fw.(rules := rules), i, result, -1, RULE_DEACTIVATED, messageId, ruleId);
    case ActivateFirewall(messageId) => SwitchQuiet(fw, i, messageId, true, FIREWALL_ACTIVATED);
    case DeactivateFirewall(messageId) => SwitchQuiet(fw, i, messageId, false, DeactivatedKind(form));
    case Unknown =>
  }

  /** What a subscription command does to the three counts. */
  lemma MaskEffect<R>(fw: Firewall<R>, i: nat, messageId: int, topic: Topic, mask: Word, success: bool,
                      change: int, kind: Word)
    requires i < |fw.clients|
    ensures var u := ExecuteMask(fw, i, messageId, topic, mask, success, change, kind);
      && |u.clients| == |fw.clients| && u.debugCount == fw.debugCount
      && u.rules == fw.rules && u.up == fw.up
      && Masks(u.clients) == Masks(fw.clients)[i := mask] && Units(u.clients) == Units(fw.clients)
      && forall t: Topic ::
           && Counter(u, t) == Counter(fw, t) + (if success && t == topic then change else 0)
           && CountBit(Masks(u.clients), TopicBit(t)) == CountBit(Masks(fw.clients), TopicBit(t))
                - Bit(TopicBit(t) in fw.clients[i].mask) + Bit(TopicBit(t) in mask)
  {
    var u := ExecuteMask(fw, i, messageId, topic, mask, success, change, kind);
    MasksAt(fw.clients);
    MasksUpdate(fw.clients, i, u.clients[i]);
    assert u.clients == fw.clients[i := u.clients[i]];
    forall t: Topic
      ensures CountBit(Masks(u.clients), TopicBit(t)) == CountBit(Masks(fw.clients), TopicBit(t))
                - Bit(TopicBit(t) in fw.clients[i].mask) + Bit(TopicBit(t) in mask)
    {
      CountBitUpdate(Masks(fw.clients), i, mask, TopicBit(t));
    }
  }

  /** A subscription keeps the counter law if and only if the corrected form is used: as written, every single
      subscribe command breaks it, the first by not counting, a repeated one by counting again. */
  lemma SubscribeKeepsLaw<R>(form: Form, fw: Firewall<R>, i: nat, messageId: int, topic: Topic)
    requires i < |fw.clients| && CounterLaw(fw)
    ensures CounterLaw(ExecuteSubscribe(form, fw, i, messageId, topic)) <==> form == Corrected
  {
    var m := fw.clients[i].mask;
    var (mask, success) := Register(form, m, TopicBit(topic));
    MaskEffect(fw, i, messageId, topic, mask, success, 1, SubscribeKind(topic));
    assert forall t: Topic :: TopicBit(t) in mask <==> t == topic || TopicBit(t) in m;
  }

  /** An unsubscription as written keeps the counter law exactly when the client was subscribed to all three
      classes, that is when it does nothing. */
  lemma UnsubscribeKeepsLaw<R>(form: Form, fw: Firewall<R>, i: nat, messageId: int, topic: Topic)
    requires i < |fw.clients| && CounterLaw(fw)
    ensures CounterLaw(ExecuteUnsubscribe(form, fw, i, messageId, topic)) <==>
      form == Corrected || forall t: Topic :: TopicBit(t) in fw.clients[i].mask
  {
    var m := fw.clients[i].mask;
    var (mask, success) := Unregister(form, m, TopicBit(topic));
    MaskEffect(fw, i, messageId, topic, mask, success, -1, UnsubscribeKind(topic));
    assert forall t: Topic :: TopicBit(t) in mask <==>
      if form == AsWritten then t != topic || TopicBit(t) in m else t != topic && TopicBit(t) in m;
  }

  /** As written the counter of a class can even become negative. */
  lemma NegativeCounter()
    ensures var fw := Connect(Start<int>(), 1);
      CounterLaw(fw) && ExecuteUnsubscribe(AsWritten, fw, 0, 9, InfoRules).infoRules == -1
  {
    var fw := Connect(Start<int>(), 1);
    assert Masks(fw.clients) == [INITIAL_CLASSES];
  }

  lemma MaskKeepsDebug<R>(form: Form, fw: Firewall<R>, i: nat, messageId: int, topic: Topic)
    requires i < |fw.clients| && DebugLaw(fw)
    ensures DebugLaw(ExecuteSubscribe(form, fw, i, messageId, topic))
    ensures DebugLaw(ExecuteUnsubscribe(form, fw, i, messageId, topic))
  {
  }

  lemma ConnectKeepsLaws<R>(fw: Firewall<R>, unit: int)
    ensures CounterLaw(fw) ==> CounterLaw(Connect(fw, unit))
    ensures DebugLaw(fw) ==> DebugLaw(Connect(fw, unit))
  {
    var u := Connect(fw, unit);
    assert u.clients[1..] == fw.clients;
    assert forall t: Topic :: CountBit(Masks(u.clients), TopicBit(t)) == CountBit(Masks(fw.clients), TopicBit(t)) by {
      assert Masks(u.clients)[1..] == Masks(fw.clients);
    }
  }

  /** A disconnect takes exactly the named client out and keeps the order of the others. */
  lemma DisconnectKeepsLaws<R>(fw: Firewall<R>, i: nat)
    requires i < |fw.clients|
    ensures CounterLaw(fw) ==> CounterLaw(Disconnect(fw, i))
    ensures DebugLaw(fw) ==> DebugLaw(Disconnect(fw, i))
    ensures Units(Disconnect(fw, i).clients) == RemoveAt(Units(fw.clients), i)
  {
    MasksRemove(fw.clients, i);
    MasksAt(fw.clients);
    forall t: Topic
      ensures CountBit(RemoveAt(Masks(fw.clients), i), TopicBit(t))
           == CountBit(Masks(fw.clients), TopicBit(t)) - Bit(TopicBit(t) in fw.clients[i].mask)
    {
      CountBitRemove(Masks(fw.clients), i, TopicBit(t));
    }
  }

  // ---------------------------------------------------------------- runs

  /** The rule table a command leaves. */
  function RulesAfter<R>(form: Form, t: RT.Table<R>, command: Command, supply: Supply<R>): RT.Table<R>
    requires RT.Known(t)
    requires supply.node.Some? ==> supply.node.value !in t.counts.refs
  {
    if !supply.memory then t
    else
      match command
      case DeleteRule(_, ruleId) => RT.DeleteRule(form, t, ruleId, supply.now).0
      case AddRule(data, state) => RT.AddReleased(form, t, supply.node, data, state, supply.now).0
      case ActivateRule(_, ruleId) => RT.ActivateRule(t, ruleId, supply.now).0
      case DeactivateRule(_, ruleId) => RT.DeactivateRule(form, t, ruleId, supply.now).0
      case _ => t
  }

  lemma ExecuteTable<R>(form: Form, fw: Firewall<R>, i: nat, command: Command, supply: Supply<R>)
    requires i < |fw.clients| && RT.Known(fw.rules)
    requires supply.node.Some? ==> supply.node.value !in fw.rules.counts.refs
    ensures Execute(form, fw, i, command, supply).rules == RulesAfter(form, fw.rules, command, supply)
  {
    match command
    case DeleteRule(messageId, ruleId) =>
      var (rules, result) := RT.DeleteRule(form, fw.rules, ruleId, supply.now);
      ReplyQuiet(fw.(rules := rules), i, result, 1, RULE_DELETED, messageId, ruleId);
    case AddRule(data, state) =>
      var (rules, result) := RT.AddReleased(form, fw.rules, supply.node, data, state, supply.now);
      ReplyQuiet(fw.(rules := rules), i, result, -1, RULE_ADDED, data.id, 0);
    case ActivateRule(messageId, ruleId) =>
      var (rules, result) := RT.ActivateRule(fw.rules, ruleId, supply.now);
      ReplyQuiet(fw.(rules := rules), i, result, -1, RULE_ACTIVATED, messageId, ruleId);
    case DeactivateRule(messageId, ruleId) =>
      var (rules, result) := RT.DeactivateRule(form, fw.rules, ruleId, supply.now);
      ReplyQuiet(fw.(rules := rules), i, result, -1, RULE_DEACTIVATED, messageId, ruleId);
    case ActivateFirewall(messageId) => SwitchQuiet(fw, i, messageId, true, FIREWALL_ACTIVATED);
    case DeactivateFirewall(messageId) => SwitchQuiet(fw, i, messageId, false, DeactivatedKind(form));
    case Subscribe(messageId, topic) =>
      var (mask, success) := Register(form, fw.clients[i].mask, TopicBit(topic));
      MaskEffect(fw, i, messageId, topic, mask, success, 1, SubscribeKind(topic));
    case Unsubscribe(messageId, topic) =>
      var (mask, success) := Unregister(form, fw.clients[i].mask, TopicBit(topic));
      MaskEffect(fw, i, messageId, topic, mask, success, -1, UnsubscribeKind(topic));
    case Unknown =>
  }

  lemma RulesAfterInv<R>(form: Form, t: RT.Table<R>, command: Command, supply: Supply<R>)
    requires RT.Inv(t) && (supply.node.Some? ==> supply.node.value !in t.counts.refs)
    ensures RT.Known(t) && RT.Inv(RulesAfter(form, t, command, supply))
  {
    RT.InvKnown(t);
    match command
    case DeleteRule(_, ruleId) => RT.DeleteInv(form, t, ruleId, supply.now);
    case AddRule(data, state) => AddRuleReleased(form, t, data, state, supply);
    case ActivateRule(_, ruleId) => RT.SwitchInv(t, ruleId, RT.RULE_STATE_INACTIVE, RT.RULE_STATE_ACTIVE, supply.now);
    case DeactivateRule(_, ruleId) =>
      RT.SwitchInv(t, ruleId, RT.RULE_STATE_INACTIVE, RT.RULE_STATE_ACTIVE, supply.now);
      RT.SwitchInv(t, ruleId, RT.RULE_STATE_ACTIVE, RT.RULE_STATE_INACTIVE, supply.now);
    case _ =>
  }

  lemma ExecuteRules<R>(form: Form, fw: Firewall<R>, i: nat, command: Command, supply: Supply<R>)
    requires i < |fw.clients| && RT.Inv(fw.rules)
    requires supply.node.Some? ==> supply.node.value !in fw.rules.counts.refs
    ensures RT.Inv(Execute(form, fw, i, command, supply).rules)
  {
    RulesAfterInv(form, fw.rules, command, supply);
    ExecuteTable(form, fw, i, command, supply);
  }

  /** The command releases the reference `AddRule` gave it, whatever the outcome. */
  lemma AddRuleReleased<R>(form: Form, t: RT.Table<R>, data: RT.RuleData, state: UInt8, supply: Supply<R>)
    requires RT.Inv(t) && (supply.node.Some? ==> supply.node.value !in t.counts.refs)
    ensures var rules := RT.AddReleased(form, t, supply.node, data, state, supply.now).0;
      RT.Inv(rules) && rules.held == t.held
  {
    if supply.node.Some? {
      RT.AddInv(form, t, supply.node.value, data, state, supply.now);
      RT.AddLends(form, t, supply.node.value, data, state, supply.now);
      var (rules, result, rule) := RT.AddRule(form, t, supply.node, data, state, supply.now);
      RT.GivenBack(t.held, rules, rule.value);
    }
  }

  lemma StepRules<R>(form: Form, fw: Firewall<R>, e: Event<R>)
    requires RT.Inv(fw.rules) && Enabled(fw, e)
    ensures RT.Inv(Apply(form, fw, e).rules)
  {
    if e.CommandEvent? {
      ExecuteRules(form, fw, Find(fw.clients, e.unit), e.command, e.supply);
    }
  }

  ghost predicate ValidRun<R>(form: Form, fw: Firewall<R>, events: seq<Event<R>>)
    requires RT.Inv(fw.rules)
    decreases |events|
  {
    events == [] ||
    (Enabled(fw, events[0]) &&
      (StepRules(form, fw, events[0]); ValidRun(form, Apply(form, fw, events[0]), events[1..])))
  }

  ghost function Run<R>(form: Form, fw: Firewall<R>, events: seq<Event<R>>): (u: Firewall<R>)
    requires RT.Inv(fw.rules) && ValidRun(form, fw, events)
    ensures RT.Inv(u.rules)
    decreases |events|
  {
    if events == [] then fw
    else
      StepRules(form, fw, events[0]);
      Run(form, Apply(form, fw, events[0]), events[1..])
  }

  lemma RunStep<R>(form: Form, fw: Firewall<R>, events: seq<Event<R>>)
    requires RT.Inv(fw.rules) && events != []
    ensures ValidRun(form, fw, events) <==>
      Enabled(fw, events[0]) &&
        (StepRules(form, fw, events[0]); ValidRun(form, Apply(form, fw, events[0]), events[1..]))
    ensures ValidRun(form, fw, events) ==>
      (StepRules(form, fw, events[0]); Run(form, fw, events) == Run(form, Apply(form, fw, events[0]), events[1..]))
  {}

  /** The run can be made and ends in `u`. */
  ghost predicate Reaches<R>(form: Form, fw: Firewall<R>, events: seq<Event<R>>, u: Firewall<R>) {
    RT.Inv(fw.rules) && ValidRun(form, fw, events) && Run(form, fw, events) == u
  }

  lemma ReachesFirst<R>(form: Form, fw: Firewall<R>, events: seq<Event<R>>, u: Firewall<R>)
    requires RT.Inv(fw.rules) && events != []
    ensures Reaches(form, fw, events, u) <==>
      Enabled(fw, events[0]) && Reaches(form, Apply(form, fw, events[0]), events[1..], u)
  {
    RunStep(form, fw, events);
    if Enabled(fw, events[0]) { StepRules(form, fw, events[0]); }
  }

  lemma {:induction false} ReachesConcat<R>(form: Form, fw: Firewall<R>, a: seq<Event<R>>, v: Firewall<R>,
                                          b: seq<Event<R>>, u: Firewall<R>)
    requires Reaches(form, fw, a, v) && Reaches(form, v, b, u)
    ensures Reaches(form, fw, a + b, u)
    decreases |a|
  {
    if a == [] {
      assert a + b == b;
    } else {
      var all := a + b;
      assert all[0] == a[0] && all[1..] == a[1..] + b;
      ReachesFirst(form, fw, a, v);
      ReachesFirst(form, fw, all, u);
      ReachesConcat(form, Apply(form, fw, a[0]), a[1..], v, b, u);
    }
  }

  /** One run after the other is one run. */
  lemma RunConcat<R>(form: Form, fw: Firewall<R>, a: seq<Event<R>>, b: seq<Event<R>>)
    requires RT.Inv(fw.rules) && ValidRun(form, fw, a) && ValidRun(form, Run(form, fw, a), b)
    ensures ValidRun(form, fw, a + b) && Run(form, fw, a + b) == Run(form, Run(form, fw, a), b)
  {
    ReachesConcat(form, fw, a, Run(form, fw, a), b, Run(form, Run(form, fw, a), b));
  }

  lemma CommandLaws<R>(form: Form, fw: Firewall<R>, i: nat, command: Command, supply: Supply<R>)
    requires i < |fw.clients| && RT.Inv(fw.rules)
    requires supply.node.Some? ==> supply.node.value !in fw.rules.counts.refs
    ensures form == Corrected && CounterLaw(fw) ==> CounterLaw(Execute(form, fw, i, command, supply))
    ensures DebugLaw(fw) ==> DebugLaw(Execute(form, fw, i, command, supply))
  {
    RT.InvKnown(fw.rules);
    var u := Execute(form, fw, i, command, supply);
    match command
    case Subscribe(messageId, topic) =>
      if CounterLaw(fw) { SubscribeKeepsLaw(form, fw, i, messageId, topic); }
      if DebugLaw(fw) { MaskKeepsDebug(form, fw, i, messageId, topic); }
    case Unsubscribe(messageId, topic) =>
      if CounterLaw(fw) { UnsubscribeKeepsLaw(form, fw, i, messageId, topic); }
      if DebugLaw(fw) { MaskKeepsDebug(form, fw, i, messageId, topic); }
    case _ =>
      ExecuteQuiet(form, fw, i, command, supply);
      QuietLaws(fw, u);
  }

  lemma StepLaws<R>(form: Form, fw: Firewall<R>, e: Event<R>)
    requires RT.Inv(fw.rules) && Enabled(fw, e)
    ensures form == Corrected && CounterLaw(fw) ==> CounterLaw(Apply(form, fw, e))
    ensures DebugLaw(fw) ==> DebugLaw(Apply(form, fw, e))
  {
    match e
    case ConnectEvent(unit) => ConnectKeepsLaws(fw, unit);
    case DisconnectEvent(unit) => DisconnectKeepsLaws(fw, Find(fw.clients, unit));
    case CommandEvent(unit, command, supply) => CommandLaws(form, fw, Find(fw.clients, unit), command, supply);
  }

  /** Over every run of connects, disconnects and commands the debug counter is the number of clients, in both
      forms, and in the corrected form each subscription counter is the number of its subscribers. */
  lemma {:induction false} EveryRunCounts<R>(form: Form, fw: Firewall<R>, events: seq<Event<R>>)
    requires RT.Inv(fw.rules) && ValidRun(form, fw, events) && DebugLaw(fw) && CounterLaw(fw)
    ensures DebugLaw(Run(form, fw, events))
    ensures form == Corrected ==> CounterLaw(Run(form, fw, events))
    decreases |events|
  {
    EveryRunDebug(form, fw, events);
    if events != [] && form == Corrected {
      StepRules(form, fw, events[0]);
      StepLaws(form, fw, events[0]);
      EveryRunCounts(form, Apply(form, fw, events[0]), events[1..]);
    }
  }

  lemma {:induction false} EveryRunDebug<R>(form: Form, fw: Firewall<R>, events: seq<Event<R>>)
    requires RT.Inv(fw.rules) && ValidRun(form, fw, events) && DebugLaw(fw)
    ensures DebugLaw(Run(form, fw, events))
    decreases |events|
  {
    if events != [] {
      StepRules(form, fw, events[0]);
      StepLaws(form, fw, events[0]);
      EveryRunDebug(form, Apply(form, fw, events[0]), events[1..]);
    }
  }
}
