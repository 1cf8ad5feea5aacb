/** What one client learns from its messages (Kext/firewall.cpp:776-1060): the answers to its own commands, and the
    state of the firewall from the notifications every client gets. */
module Replay {
  import opened Common
  import opened Messages
  import opened RuleOrder
  import RT = RuleTable
  import opened Protocol
  import opened ProtocolLaws
  import RuleLaws

  // ---------------------------------------------------------------- answers

  /** The type of the answer to a command. */
  function AnswerKind(form: Form, command: Command): Word {
    match command
    case DeleteRule(_, _) => RULE_DELETED
    case AddRule(_, _) => RULE_ADDED
    case ActivateRule(_, _) => RULE_ACTIVATED
    case DeactivateRule(_, _) => RULE_DEACTIVATED
    case ActivateFirewall(_) => FIREWALL_ACTIVATED
    case DeactivateFirewall(_) => DeactivatedKind(form)
    case Subscribe(_, topic) => SubscribeKind(topic)
    case Unsubscribe(_, topic) => UnsubscribeKind(topic)
    case Unknown => {}
  }

  /** The id the answer carries: of the message, but of the rule for an added rule. */
  function AnswerId(command: Command): int {
    match command
    case DeleteRule(messageId, _) => messageId
    case AddRule(data, _) => data.id
    case ActivateRule(messageId, _) => messageId
    case DeactivateRule(messageId, _) => messageId
    case ActivateFirewall(messageId) => messageId
    case DeactivateFirewall(messageId) => messageId
    case Subscribe(messageId, _) => messageId
    case Unsubscribe(messageId, _) => messageId
    case Unknown => 0
  }

  function NamedRule(command: Command): int {
    match command
    case DeleteRule(_, ruleId) => ruleId
    case ActivateRule(_, ruleId) => ruleId
    case DeactivateRule(_, ruleId) => ruleId
    case _ => 0
  }

  predicate OnRules(command: Command) {
    command.DeleteRule? || command.AddRule? || command.ActivateRule? || command.DeactivateRule?
  }

  predicate HasRule<R>(t: RT.Table<R>, id: UInt32)
    requires RT.Known(t)
  {
    exists r :: r in t.chain && t.data[r].id == id
  }

  /** The state of the first rule with the id. */
  function StateOf<R>(t: RT.Table<R>, id: UInt32): int
    requires RT.Known(t) && HasRule(t, id)
  {
    t.state[t.chain[RT.FirstWithId(t.chain, t.data, id)]]
  }

  /** What a command is answered, in terms of the firewall before it: 0 when it was carried out, 1 when there was
      nothing to do, "failed" when it could not be done. */
  ghost function Outcome<R>(form: Form, fw: Firewall<R>, i: nat, command: Command, supply: Supply<R>): int
    requires i < |fw.clients| && RT.Known(fw.rules)
  {
    var mask := fw.clients[i].mask;
    match command
    case DeleteRule(_, id) => if HasRule(fw.rules, id) then 0 else 0xFFFF_FFFF
    case AddRule(data, _) =>
      if supply.node.None? then 0xFFFF_FFFF else if RT.HasKey(fw.rules.chain, fw.rules.data, data.key) then 1 else 0
    case ActivateRule(_, id) =>
      if !HasRule(fw.rules, id) then 0xFFFF_FFFF
      else if StateOf(fw.rules, id) == 2 then 0 else 1
    case DeactivateRule(_, id) =>
      if !HasRule(fw.rules, id) then 0xFFFF_FFFF
      else if StateOf(fw.rules, id) == (if form == Corrected then 1 else 2)
      then 0 else 1
    case ActivateFirewall(_) => if fw.up then 1 else 0
    case DeactivateFirewall(_) => if fw.up then 0 else 1
    case Subscribe(_, topic) => if (TopicBit(topic) in mask) == (form == AsWritten) then 0 else 1
    case Unsubscribe(_, topic) => if (TopicBit(topic) in mask) == (form == Corrected) then 0 else 1
    case Unknown => 0
  }

  /** What the j-th client receives because of a command of the i-th: the sender always gets the answer, the others
      only of a command on the rules or the firewall that was carried out, and the type must have a bit of the mask.
      As written, the deletion of a rule that does not exist is not answered. */
  ghost function Answers<R>(form: Form, fw: Firewall<R>, i: nat, j: nat, command: Command, supply: Supply<R>): seq<Raw>
    requires i < |fw.clients| && j < |fw.clients| && RT.Known(fw.rules)
  {
    var outcome, kind := Outcome(form, fw, i, command, supply), AnswerKind(form, command);
    if command.Unknown? || (form == AsWritten && command.DeleteRule? && outcome != 0) then []
    else if j != i && (outcome != 0 || command.Subscribe? || command.Unsubscribe?) then []
    else if forall b :: b in kind ==> b !in fw.clients[j].mask then []
    else [Raw(kind, if OnRules(command) then 20 else 16, fw.clients[i].unit, AnswerId(command), outcome,
              NamedRule(command))]
  }

  lemma ReplyInbox<R>(fw: Firewall<R>, i: nat, j: nat, result: int, failure: int, kind: Word, messageId: int,
                      ruleId: int)
    requires i < |fw.clients| && j < |fw.clients|
    ensures var u := Reply(fw, i, result, failure, kind, messageId, ruleId);
      var unit := fw.clients[i].unit;
      && |u.clients| == |fw.clients|
      && u.clients[j].inbox == fw.clients[j].inbox +
           if forall b :: b in kind ==> b !in fw.clients[j].mask then []
           else if result == 0 then [RuleAnswer(kind, unit, messageId, 0, ruleId)]
           else if j != i then []
           else if result == failure then [RuleAnswer(kind, unit, messageId, ACTION_FAILED, ruleId)]
           else if result == 1 then [RuleAnswer(kind, unit, messageId, 1, ruleId)]
           else []
  {
    WantedExactly(kind, fw.clients[j].mask);
  }

  lemma SwitchInbox<R>(fw: Firewall<R>, i: nat, j: nat, messageId: int, up: bool, kind: Word)
    requires i < |fw.clients| && j < |fw.clients|
    ensures var u := ExecuteSwitch(fw, i, messageId, up, kind);
      var unit := fw.clients[i].unit;
      && |u.clients| == |fw.clients|
      && u.clients[j].inbox == fw.clients[j].inbox +
           if forall b :: b in kind ==> b !in fw.clients[j].mask then []
           else if fw.up != up then [PlainAnswer(kind, unit, messageId, 0)]
           else if j != i then []
           else [PlainAnswer(kind, unit, messageId, 1)]
  {
    WantedExactly(kind, fw.clients[j].mask);
  }

  lemma MaskInbox<R>(fw: Firewall<R>, i: nat, j: nat, messageId: int, topic: Topic, mask: Word, success: bool,
                     change: int, kind: Word)
    requires i < |fw.clients| && j < |fw.clients| && Wanted(kind, mask)
    ensures var u := ExecuteMask(fw, i, messageId, topic, mask, success, change, kind);
      && |u.clients| == |fw.clients|
      && u.clients[j].inbox == fw.clients[j].inbox +
           if j != i then [] else [PlainAnswer(kind, fw.clients[i].unit, messageId, if success then 0 else 1)]
  {}

  lemma FirstFound<R>(t: RT.Table<R>, id: UInt32)
    requires RT.Known(t)
    ensures HasRule(t, id) <==> RT.FirstWithId(t.chain, t.data, id) < |t.chain|
  {
    var k := RT.FirstWithId(t.chain, t.data, id);
    if k < |t.chain| { assert t.chain[k] in t.chain; }
  }

  lemma AddResult<R>(form: Form, t: RT.Table<R>, node: R, data: RT.RuleData, state: UInt8, now: int)
    requires RT.Known(t) && RT.Descending(t.chain, t.data) && node !in t.counts.refs
    ensures RT.AddRule(form, t, Some(node), data, state, now).1
         == if RT.HasKey(t.chain, t.data, data.key) then 1 else 0
  {
    RuleLaws.AddRuleChain(form, t, node, data, state, now);
    RT.PlaceSplits(t.chain, t.data, data.key);
  }

  lemma DeleteAnswered<R>(form: Form, fw: Firewall<R>, i: nat, j: nat, messageId: UInt32, id: UInt32, supply: Supply<R>)
    requires i < |fw.clients| && j < |fw.clients| && RT.Known(fw.rules)
    ensures var u := ExecuteDelete(form, fw, i, messageId, id, supply.now);
      && |u.clients| == |fw.clients|
      && u.clients[j].inbox == fw.clients[j].inbox + Answers(form, fw, i, j, DeleteRule(messageId, id), supply)
  {
    var (rules, result) := RT.DeleteRule(form, fw.rules, id, supply.now);
    FirstFound(fw.rules, id);
    ReplyInbox(fw.(rules := rules), i, j, result, 1, RULE_DELETED, messageId, id);
  }

  lemma AddAnswered<R>(form: Form, fw: Firewall<R>, i: nat, j: nat, data: RT.RuleData, state: UInt8, supply: Supply<R>)
    requires i < |fw.clients| && j < |fw.clients| && RT.Known(fw.rules) && RT.Descending(fw.rules.chain, fw.rules.data)
    requires supply.node.Some? ==> supply.node.value !in fw.rules.counts.refs
    ensures var u := ExecuteAdd(form, fw, i, data, state, supply);
      && |u.clients| == |fw.clients|
      && u.clients[j].inbox == fw.clients[j].inbox + Answers(form, fw, i, j, AddRule(data, state), supply)
  {
    var (rules, result) := RT.AddReleased(form, fw.rules, supply.node, data, state, supply.now);
    if supply.node.Some? { AddResult(form, fw.rules, supply.node.value, data, state, supply.now); }
    ReplyInbox(fw.(rules := rules), i, j, result, -1, RULE_ADDED, data.id, 0);
  }

  lemma ActivationAnswered<R>(form: Form, fw: Firewall<R>, i: nat, j: nat, messageId: UInt32, id: UInt32,
                              supply: Supply<R>)
    requires i < |fw.clients| && j < |fw.clients| && RT.Known(fw.rules)
    ensures var u := ExecuteActivate(fw, i, messageId, id, supply.now);
      && |u.clients| == |fw.clients|
      && u.clients[j].inbox == fw.clients[j].inbox + Answers(form, fw, i, j, ActivateRule(messageId, id), supply)
  {
    FirstFound(fw.rules, id);
    var (rules, result) := RT.ActivateRule(fw.rules, id, supply.now);
    ReplyInbox(fw.(rules := rules), i, j, result, -1, RULE_ACTIVATED, messageId, id);
  }

  lemma DeactivationAnswered<R>(form: Form, fw: Firewall<R>, i: nat, j: nat, messageId: UInt32, id: UInt32,
                                supply: Supply<R>)
    requires i < |fw.clients| && j < |fw.clients| && RT.Known(fw.rules)
    ensures var u := ExecuteDeactivate(form, fw, i, messageId, id, supply.now);
      && |u.clients| == |fw.clients|
      && u.clients[j].inbox == fw.clients[j].inbox + Answers(form, fw, i, j, DeactivateRule(messageId, id), supply)
  {
    FirstFound(fw.rules, id);
    var (rules, result) := RT.DeactivateRule(form, fw.rules, id, supply.now);
    ReplyInbox(fw.(rules := rules), i, j, result, -1, RULE_DEACTIVATED, messageId, id);
  }

  lemma MaskAnswered<R>(form: Form, fw: Firewall<R>, i: nat, j: nat, messageId: UInt32, topic: Topic, supply: Supply<R>)
    requires i < |fw.clients| && j < |fw.clients| && RT.Known(fw.rules) && Basic(fw.clients[i].mask)
    ensures var u := ExecuteSubscribe(form, fw, i, messageId, topic);
      && |u.clients| == |fw.clients|
      && u.clients[j].inbox == fw.clients[j].inbox + Answers(form, fw, i, j, Subscribe(messageId, topic), supply)
    ensures var u := ExecuteUnsubscribe(form, fw, i, messageId, topic);
      && |u.clients| == |fw.clients|
      && u.clients[j].inbox == fw.clients[j].inbox + Answers(form, fw, i, j, Unsubscribe(messageId, topic), supply)
  {
    var m := fw.clients[i].mask;
    FirewallKinds(m, topic);
    WantedExactly(SubscribeKind(topic), m);
    WantedExactly(UnsubscribeKind(topic), m);
    var (more, subscribed) := Register(form, m, TopicBit(topic));
    FirewallKinds(more, topic);
    MaskInbox(fw, i, j, messageId, topic, more, subscribed, 1, SubscribeKind(topic));
    var (less, unsubscribed) := Unregister(form, m, TopicBit(topic));
    FirewallKinds(less, topic);
    MaskInbox(fw, i, j, messageId, topic, less, unsubscribed, -1, UnsubscribeKind(topic));
  }

  /** Every command puts into every inbox exactly the answers it is due, at most one. */
  lemma AnsweredExactly<R>(form: Form, fw: Firewall<R>, i: nat, j: nat, command: Command, supply: Supply<R>)
    requires i < |fw.clients| && j < |fw.clients| && RT.Inv(fw.rules) && supply.memory
    requires Basic(fw.clients[i].mask) && Basic(fw.clients[j].mask)
    requires supply.node.Some? ==> supply.node.value !in fw.rules.counts.refs
    ensures RT.Known(fw.rules)
    ensures var u := Execute(form, fw, i, command, supply);
      && |u.clients| == |fw.clients|
      && u.clients[j].inbox == fw.clients[j].inbox + Answers(form, fw, i, j, command, supply)
  {
    RT.InvKnown(fw.rules);
    match command
    case DeleteRule(messageId, id) => DeleteAnswered(form, fw, i, j, messageId, id, supply);
    case AddRule(data, state) => AddAnswered(form, fw, i, j, data, state, supply);
    case ActivateRule(messageId, id) => ActivationAnswered(form, fw, i, j, messageId, id, supply);
    case DeactivateRule(messageId, id) => DeactivationAnswered(form, fw, i, j, messageId, id, supply);
    case ActivateFirewall(messageId) => SwitchInbox(fw, i, j, messageId, true, FIREWALL_ACTIVATED);
    case DeactivateFirewall(messageId) => SwitchInbox(fw, i, j, messageId, false, DeactivatedKind(form));
    case Subscribe(messageId, topic) => MaskAnswered(form, fw, i, j, messageId, topic, supply);
    case Unsubscribe(messageId, topic) => MaskAnswered(form, fw, i, j, messageId, topic, supply);
    case Unknown =>
  }

  /** The sender of a known command whose answer its mask lets through gets exactly one answer in the corrected form;
      as written it gets none if and only if the command deletes a rule that does not exist. */
  lemma AnsweredOnce<R>(form: Form, fw: Firewall<R>, i: nat, command: Command, supply: Supply<R>)
    requires i < |fw.clients| && RT.Inv(fw.rules) && Basic(fw.clients[i].mask) && supply.memory
    requires supply.node.Some? ==> supply.node.value !in fw.rules.counts.refs
    requires !command.Unknown? && exists b :: b in AnswerKind(form, command) && b in fw.clients[i].mask
    ensures RT.Known(fw.rules)
    ensures var u := Execute(form, fw, i, command, supply);
      && |u.clients| == |fw.clients|
      && |fw.clients[i].inbox| <= |u.clients[i].inbox| <= |fw.clients[i].inbox| + 1
      && (|u.clients[i].inbox| == |fw.clients[i].inbox| + 1 <==>
            form == Corrected || (command.DeleteRule? ==> HasRule(fw.rules, command.ruleId)))
  {
    AnsweredExactly(form, fw, i, i, command, supply);
  }

  /** As written the deletion of a rule that does not exist is not answered, even to a subscriber. */
  lemma UnansweredDelete()
    ensures var fw := ExecuteSubscribe(AsWritten, Connect(Start<int>(), 1), 0, 9, InfoRules);
      && |fw.clients| == 1
      && Execute(AsWritten, fw, 0, DeleteRule(3, 4), Supply(true, None, 0)).clients[0].inbox == fw.clients[0].inbox
      && Execute(Corrected, fw, 0, DeleteRule(3, 4), Supply(true, None, 0)).clients[0].inbox
         == fw.clients[0].inbox + [Raw(RULE_DELETED, 20, 1, 3, ACTION_FAILED, 4)]
  {
    var fw := ExecuteSubscribe(AsWritten, Connect(Start<int>(), 1), 0, 9, InfoRules);
    assert fw.clients[0].mask == INITIAL_CLASSES + {MESSAGE_CLASS_INFO_RULES};
    assert MESSAGE_CLASS_INFO_RULES in RULE_DELETED * fw.clients[0].mask;
  }

  // ---------------------------------------------------------------- the state of the firewall

  /** A notification that the firewall was switched, as opposed to an answer that it was already so. */
  predicate IsNotice(m: Raw) {
    (m.kind == FIREWALL_ACTIVATED || m.kind == FIREWALL_DEACTIVATED) && m.actionState == 0
  }

  function AfterNotice(up: bool, m: Raw): bool {
    if IsNotice(m) then m.kind == FIREWALL_ACTIVATED else up
  }

  /** The state a client concludes from its messages. */
  function Concluded(up: bool, messages: seq<Raw>): bool
    decreases |messages|
  {
    if messages == [] then up else Concluded(AfterNotice(up, messages[0]), messages[1..])
  }

  /** Every notice announces a change. */
  predicate Alternates(up: bool, messages: seq<Raw>)
    decreases |messages|
  {
    messages == [] ||
    ((IsNotice(messages[0]) ==> (messages[0].kind == FIREWALL_ACTIVATED) != up)
     && Alternates(AfterNotice(up, messages[0]), messages[1..]))
  }

  predicate Noticed(messages: seq<Raw>) {
    exists i :: 0 <= i < |messages| && IsNotice(messages[i])
  }

  lemma KindsDiffer(t: Topic)
    ensures FIREWALL_ACTIVATED != FIREWALL_DEACTIVATED
    ensures SubscribeKind(t) != FIREWALL_ACTIVATED && SubscribeKind(t) != FIREWALL_DEACTIVATED
    ensures UnsubscribeKind(t) != FIREWALL_ACTIVATED && UnsubscribeKind(t) != FIREWALL_DEACTIVATED
    ensures forall k: Word :: MESSAGE_CLASS_INFO_RULES in k ==> k != FIREWALL_ACTIVATED && k != FIREWALL_DEACTIVATED
  {
    var s, u := SubscribeKind(t), UnsubscribeKind(t);
    assert 0 in FIREWALL_ACTIVATED && 1 !in FIREWALL_ACTIVATED && 2 !in FIREWALL_ACTIVATED && 3 !in FIREWALL_ACTIVATED;
    assert 1 in FIREWALL_DEACTIVATED && 0 !in FIREWALL_DEACTIVATED;
    assert 2 !in FIREWALL_DEACTIVATED && 3 !in FIREWALL_DEACTIVATED;
    assert MESSAGE_CLASS_INFO_RULES !in FIREWALL_ACTIVATED && MESSAGE_CLASS_INFO_RULES !in FIREWALL_DEACTIVATED;
    assert (0 in s && 1 in s) || 2 in s;
    assert 2 in u || 3 in u;
  }

  /** What one event adds to the inbox of a client: at most one message, which is a notice exactly when the firewall
      is switched. */
  ghost predicate Learns(form: Form, before: bool, after: bool, delta: seq<Raw>) {
    && |delta| <= 1
    && (before != after ==>
          |delta| == 1 && IsNotice(delta[0])
          && delta[0].kind == if after then FIREWALL_ACTIVATED else DeactivatedKind(form))
    && (before == after && |delta| == 1 ==> !IsNotice(delta[0]))
  }

  /** The j-th client after a command of the i-th: its inbox grows by what it learns. */
  ghost predicate Grows<R>(form: Form, fw: Firewall<R>, u: Firewall<R>, j: nat) {
    && j < |fw.clients| && |u.clients| == |fw.clients|
    && u.clients[j].unit == fw.clients[j].unit
    && fw.clients[j].inbox <= u.clients[j].inbox
    && Learns(form, fw.up, u.up, u.clients[j].inbox[|fw.clients[j].inbox|..])
  }

  /** Only the two firewall commands touch its state. */
  lemma StateAfter<R>(form: Form, fw: Firewall<R>, i: nat, command: Command, supply: Supply<R>)
    requires i < |fw.clients| && RT.Known(fw.rules) && supply.memory
    requires supply.node.Some? ==> supply.node.value !in fw.rules.counts.refs
    ensures Execute(form, fw, i, command, supply).up ==
      if command.ActivateFirewall? then true else if command.DeactivateFirewall? then false else fw.up
  {}

  lemma ExecuteGrows<R>(form: Form, fw: Firewall<R>, i: nat, j: nat, command: Command, supply: Supply<R>)
    requires i < |fw.clients| && j < |fw.clients| && RT.Inv(fw.rules)
    requires Basic(fw.clients[i].mask) && Basic(fw.clients[j].mask)
    requires supply.node.Some? ==> supply.node.value !in fw.rules.counts.refs
    ensures RT.Known(fw.rules) && Grows(form, fw, Execute(form, fw, i, command, supply), j)
  {
    RT.InvKnown(fw.rules);
    UnitsKept(form, fw, i, command, supply);
    if supply.memory {
      StateAfter(form, fw, i, command, supply);
      AnsweredExactly(form, fw, i, j, command, supply);
      FirewallKinds(fw.clients[j].mask, InfoRules);
      KindsDiffer(if command.Subscribe? || command.Unsubscribe? then command.topic else InfoRules);
    }
  }

  // ---------------------------------------------------------------- a client that stays

  /** The record of a connected unit. */
  ghost function Record<R>(fw: Firewall<R>, unit: int): ClientRecord
    requires Find(fw.clients, unit) < |fw.clients|
  {
    fw.clients[Find(fw.clients, unit)]
  }

  lemma {:induction false} FindSame(a: seq<ClientRecord>, b: seq<ClientRecord>, unit: int)
    requires |a| == |b| && forall i :: 0 <= i < |a| ==> a[i].unit == b[i].unit
    ensures Find(a, unit) == Find(b, unit)
  {
    if a != [] {
      FindSame(a[1..], b[1..], unit);
    }
  }

  lemma {:induction false} FindIs(clients: seq<ClientRecord>, unit: int, k: nat)
    requires k < |clients| && clients[k].unit == unit && forall j :: 0 <= j < k ==> clients[j].unit != unit
    ensures Find(clients, unit) == k
  {
    if k > 0 {
      FindIs(clients[1..], unit, k - 1);
    }
  }

  lemma FindRemove(clients: seq<ClientRecord>, i: nat, unit: int)
    requires i < |clients| && clients[i].unit != unit && Find(clients, unit) < |clients|
    ensures var r := RemoveAt(clients, i);
      Find(r, unit) < |r| && r[Find(r, unit)] == clients[Find(clients, unit)]
  {
    var k := Find(clients, unit);
    FindIs(RemoveAt(clients, i), unit, if k < i then k else k - 1);
  }

  lemma EventGrows<R>(form: Form, fw: Firewall<R>, e: Event<R>, unit: int)
    requires RT.Inv(fw.rules) && Enabled(fw, e) && e != DisconnectEvent(unit) && DebugLaw(fw)
    requires Find(fw.clients, unit) < |fw.clients|
    ensures var u := Apply(form, fw, e);
      && Find(u.clients, unit) < |u.clients|
      && Record(fw, unit).inbox <= Record(u, unit).inbox
      && Learns(form, fw.up, u.up, Record(u, unit).inbox[|Record(fw, unit).inbox|..])
  {
    var u := Apply(form, fw, e);
    match e
    case ConnectEvent(other) =>
      assert u.clients[1..] == fw.clients;
    case DisconnectEvent(other) => FindRemove(fw.clients, Find(fw.clients, other), unit);
    case CommandEvent(other, command, supply) =>
      ExecuteGrows(form, fw, Find(fw.clients, other), Find(fw.clients, unit), command, supply);
      UnitsKept(form, fw, Find(fw.clients, other), command, supply);
      FindSame(fw.clients, u.clients, unit);
  }

  lemma UnitsKept<R>(form: Form, fw: Firewall<R>, i: nat, command: Command, supply: Supply<R>)
    requires i < |fw.clients| && RT.Known(fw.rules)
    requires supply.node.Some? ==> supply.node.value !in fw.rules.counts.refs
    ensures var u := Execute(form, fw, i, command, supply);
      |u.clients| == |fw.clients| && forall k :: 0 <= k < |fw.clients| ==> u.clients[k].unit == fw.clients[k].unit
  {
    if !command.Subscribe? && !command.Unsubscribe? {
      ExecuteQuiet(form, fw, i, command, supply);
    }
  }

  /** The messages a unit gets during a run it stays connected in. */
  ghost function Received<R>(fw: Firewall<R>, u: Firewall<R>, unit: int): seq<Raw>
    requires Find(fw.clients, unit) < |fw.clients| && Find(u.clients, unit) < |u.clients|
    requires Record(fw, unit).inbox <= Record(u, unit).inbox
  {
    Record(u, unit).inbox[|Record(fw, unit).inbox|..]
  }

  /** All notices say "activated", as the text as written makes them. */
  ghost predicate OnlyUp(messages: seq<Raw>) {
    forall i :: 0 <= i < |messages| && IsNotice(messages[i]) ==> messages[i].kind == FIREWALL_ACTIVATED
  }

  lemma {:induction false} OnlyUpConcluded(up: bool, messages: seq<Raw>)
    requires OnlyUp(messages)
    ensures Concluded(up, messages) == (up || Noticed(messages))
    decreases |messages|
  {
    if messages != [] {
      var rest := messages[1..];
      OnlyUpConcluded(AfterNotice(up, messages[0]), rest);
      assert messages == [messages[0]] + rest;
      NoticedSplit(messages[0], rest);
    }
  }

  /** What messages tell about a stretch in which the firewall went from one state to another. */
  ghost predicate Told(form: Form, before: bool, after: bool, messages: seq<Raw>) {
    && (form == Corrected ==> Concluded(before, messages) == after && Alternates(before, messages))
    && (form == AsWritten ==> OnlyUp(messages))
    && (!Noticed(messages) ==> after == before)
  }

  /** A unit is connected before and after, and its inbox has grown by what it was told. */
  ghost predicate Stays<R>(form: Form, fw: Firewall<R>, u: Firewall<R>, unit: int) {
    && Find(fw.clients, unit) < |fw.clients| && Find(u.clients, unit) < |u.clients|
    && Record(fw, unit).inbox <= Record(u, unit).inbox
    && Told(form, fw.up, u.up, Received(fw, u, unit))
  }

  lemma StaysThrough<R>(form: Form, fw: Firewall<R>, v: Firewall<R>, u: Firewall<R>, unit: int)
    requires Find(fw.clients, unit) < |fw.clients| && Find(v.clients, unit) < |v.clients|
    requires Record(fw, unit).inbox <= Record(v, unit).inbox
    requires Learns(form, fw.up, v.up, Received(fw, v, unit))
    requires Stays(form, v, u, unit)
    ensures Stays(form, fw, u, unit)
  {
    assert Received(fw, u, unit) == Received(fw, v, unit) + Received(v, u, unit);
    OneMore(form, fw.up, v.up, Received(fw, v, unit), Received(v, u, unit));
  }

  /** What the run tells a client that stays connected, before any conclusion. */
  lemma {:induction false} NoticesFollow<R>(form: Form, fw: Firewall<R>, events: seq<Event<R>>, unit: int)
    requires RT.Inv(fw.rules) && ValidRun(form, fw, events) && DebugLaw(fw)
    requires Find(fw.clients, unit) < |fw.clients|
    requires forall i :: 0 <= i < |events| ==> events[i] != DisconnectEvent(unit)
    ensures Stays(form, fw, Run(form, fw, events), unit)
    decreases |events|
  {
    if events != [] {
      var e := events[0];
      RunStep(form, fw, events);
      StepRules(form, fw, e);
      StepLaws(form, fw, e);
      EventGrows(form, fw, e, unit);
      var v := Apply(form, fw, e);
      assert forall i :: 0 <= i < |events[1..]| ==> events[1..][i] == events[i + 1];
      NoticesFollow(form, v, events[1..], unit);
      StaysThrough(form, fw, v, Run(form, v, events[1..]), unit);
    } else {
      assert Received(fw, fw, unit) == [];
    }
  }

  /** A client connected throughout a run that concludes the state of the firewall from the notices it gets is
      right, corrected, and the notices strictly alternate.  As written, where the "deactivated" message says
      "activated", it is right if and only if the firewall is up or no notice has come at all. */
  lemma NoticesTellState<R>(form: Form, fw: Firewall<R>, events: seq<Event<R>>, unit: int)
    requires RT.Inv(fw.rules) && ValidRun(form, fw, events) && DebugLaw(fw)
    requires Find(fw.clients, unit) < |fw.clients|
    requires forall i :: 0 <= i < |events| ==> events[i] != DisconnectEvent(unit)
    ensures var u := Run(form, fw, events);
      && Find(u.clients, unit) < |u.clients|
      && Record(fw, unit).inbox <= Record(u, unit).inbox
      && var messages := Received(fw, u, unit);
         && (form == Corrected ==> Concluded(fw.up, messages) == u.up && Alternates(fw.up, messages))
         && (form == AsWritten ==> (Concluded(fw.up, messages) == u.up <==> u.up || !Noticed(messages)))
  {
    NoticesFollow(form, fw, events, unit);
    if form == AsWritten {
      OnlyUpConcluded(fw.up, Received(fw, Run(form, fw, events), unit));
    }
  }

  /** Switching the firewall tells its only client, who has not changed its subscriptions. */
  lemma OnlyClientTold(fw: Firewall<int>, messageId: UInt32, up: bool, kind: Word)
    requires |fw.clients| == 1 && fw.clients[0].unit == 1 && fw.clients[0].mask == INITIAL_CLASSES && fw.up != up
    requires kind == FIREWALL_ACTIVATED || kind == FIREWALL_DEACTIVATED
    ensures var u := ExecuteSwitch(fw, 0, messageId, up, kind);
      && u.up == up && u.rules == fw.rules
      && u.clients == [ClientRecord(1, INITIAL_CLASSES, fw.clients[0].inbox + [PlainAnswer(kind, 1, messageId, 0)])]
  {
    FirewallKinds(INITIAL_CLASSES, InfoRules);
  }

  /** As written: connect, activate, deactivate, and the client takes the firewall to be up although it is down. */
  lemma TakenForUp()
    ensures var supply: Supply<int> := Supply(true, None, 0);
      var fw := Connect(Start<int>(), 1);
      var v := Execute(AsWritten, fw, 0, ActivateFirewall(2), supply);
      var w := Execute(AsWritten, v, 0, DeactivateFirewall(3), supply);
      && |w.clients| == 1 && !w.up && Concluded(false, w.clients[0].inbox)
  {
    var supply: Supply<int> := Supply(true, None, 0);
    var fw := Connect(Start<int>(), 1);
    OnlyClientTold(fw, 2, true, FIREWALL_ACTIVATED);
    var v := Execute(AsWritten, fw, 0, ActivateFirewall(2), supply);
    OnlyClientTold(v, 3, false, FIREWALL_ACTIVATED);
    var first, second := PlainAnswer(FIREWALL_ACTIVATED, 1, 2, 0), PlainAnswer(FIREWALL_ACTIVATED, 1, 3, 0);
    ToldUp(first, second);
  }

  lemma ToldUp(first: Raw, second: Raw)
    requires first.kind == second.kind == FIREWALL_ACTIVATED && first.actionState == second.actionState == 0
    ensures Concluded(false, [first, second])
  {
    KindsDiffer(InfoRules);
    assert IsNotice([first, second][0]);
    OnlyUpConcluded(false, [first, second]);
  }

  /** Putting what one event adds in front of the rest. */
  lemma OneMore(form: Form, before: bool, after: bool, delta: seq<Raw>, rest: seq<Raw>)
    requires Learns(form, before, after, delta)
    ensures form == Corrected ==> Concluded(before, delta + rest) == Concluded(after, rest)
    ensures form == Corrected && Alternates(after, rest) ==> Alternates(before, delta + rest)
    ensures form == AsWritten && OnlyUp(rest) ==> OnlyUp(delta + rest)
    ensures Noticed(delta + rest) <==> before != after || Noticed(rest)
  {
    KindsDiffer(InfoRules);
    if delta == [] {
      assert delta + rest == rest;
    } else {
      assert (delta + rest)[0] == delta[0] && (delta + rest)[1..] == rest;
      NoticedSplit(delta[0], rest);
      assert delta + rest == [delta[0]] + rest;
    }
  }

  lemma NoticedSplit(m: Raw, rest: seq<Raw>)
    ensures Noticed([m] + rest) <==> IsNotice(m) || Noticed(rest)
  {
    var all := [m] + rest;
    if i :| 0 <= i < |rest| && IsNotice(rest[i]) {
      assert IsNotice(all[i + 1]);
    }
    if IsNotice(m) {
      assert IsNotice(all[0]);
    }
    if i :| 0 <= i < |all| && IsNotice(all[i]) {
      assert i == 0 || IsNotice(rest[i - 1]);
    }
  }
}
