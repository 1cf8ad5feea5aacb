/** The kernel control as the program has it: `KcConnect`, `KcDisconnect` and the loop of `KcSend` on the linked
    clients with their queues, on the linked rules, and on the state and counters of the firewall
    (Kext/firewall.cpp:681-1060).  Proved against `Protocol` and `Commands`. */
module KernelControl {
  import opened Common
  import opened Messages
  import opened RuleOrder
  import opened ClientsHeap
  import opened AudienceHeap
  import RH = RulesHeap
  import R = Records
  import F = Fanout
  import RT = RuleTable
  import opened Protocol
  import opened ProtocolLaws
  import opened Framing
  import opened Commands

  type Rule = RH.Rule

  /** What the kernel decides while a command runs: whether the answer and the rule can be allocated, and the time. */
  datatype Kernel = Kernel(memory: bool, ruleMemory: bool, now: int)

  /** What the kernel decided is what the protocol's command was supplied with; only an addition makes a rule. */
  predicate Supplied<R>(command: Command, kernel: Kernel, supply: Supply<R>) {
    && supply.memory == kernel.memory && supply.now == kernel.now
    && (supply.node.Some? <==> command.AddRule? && kernel.memory && kernel.ruleMemory)
  }

  /** The commands of a buffer done and to do, and what those done were supplied with. */
  datatype Progress = Progress(done: seq<Command>, todo: seq<Command>, supplies: seq<Supply<Rule>>)

  /** The events of one buffer: its commands, each with what the kernel supplies while it runs. */
  function Events<R>(unit: int, commands: seq<Command>, supplies: seq<Supply<R>>): (r: seq<Event<R>>)
    requires |commands| <= |supplies|
    ensures |r| == |commands|
  {
    if commands == [] then []
    else [CommandEvent(unit, commands[0], supplies[0])] + Events(unit, commands[1..], supplies[1..])
  }

  /** The clients and messages are in a reachable state. */
  ghost predicate Ready(a: Audience)
    reads a, a.list, a.S.clients.Keys, a.Nodes`next, a.S.counts.refs.Keys
  {
    a.Coupled() && F.Inv(a.S) && R.Present(a.S)
  }

  /** The objects that have joined are new. */
  twostate predicate Grew(a: Audience)
    reads a
  {
    && a.S.listed == old(a.S.listed) && a.S.clients.Keys == old(a.S.clients.Keys)
    && (forall n :: n in a.Nodes ==> n in old(a.Nodes) || fresh(n))
    && (forall m :: m in a.S.counts.refs ==> m in old(a.S.counts.refs) || fresh(m))
  }

  method MakeAnswer(a: Audience, raw: Raw) returns (m: Message)
    requires Ready(a)
    modifies a`S
    ensures Ready(a) && Grew(a) && m.raw == raw && m in a.S.hold && m in a.S.counts.refs
    ensures R.Records(a.S) == old(R.Records(a.S))
  {
    ghost var w := a.S;
    m := a.Create(raw);
    R.MakesMessage(w, m);
  }

  method SendAnswerToAll(a: Audience, m: Message)
    requires Ready(a) && m in a.S.hold
    modifies a, a.list, a.S.clients.Keys, a.Nodes, a.S.counts.refs.Keys
    ensures Ready(a) && Grew(a) && m in a.S.hold
    ensures R.Records(a.S) == DeliverAll(old(R.Records(a.S)), m.raw)
  {
    R.SendsToAll(a.S, m);
    a.Broadcast(m, {});
  }

  method SendAnswerToOne(a: Audience, c: Client, m: Message, ghost i: nat, ghost goal: seq<ClientRecord>)
    requires Ready(a) && m in a.S.hold && m in a.S.counts.refs && i < |a.S.listed| && c == a.S.listed[i]
    requires goal == R.Answered(R.Records(a.S), i, m.raw)
    modifies a, a.list, a.S.clients.Keys, a.Nodes, a.S.counts.refs.Keys
    ensures Ready(a) && Grew(a) && m in a.S.hold && R.Records(a.S) == goal
  {
    R.SendsToOne(a.S, i, m);
    a.SendOne(c, m, true);
  }

  method ReleaseAnswer(a: Audience, m: Message)
    requires Ready(a) && m in a.S.hold
    modifies a`S, m`references, m`freed
    ensures Ready(a) && Grew(a)
    ensures R.Records(a.S) == old(R.Records(a.S))
  {
    F.HeldIsThere(a.S, m);
    R.GivesBack(a.S, m);
    a.Release(m);
  }

  method PassToAll(a: Audience, m: Message)
    requires Ready(a) && m in a.S.hold && m in a.S.counts.refs
    modifies a, a.list, a.S.clients.Keys, a.Nodes, a.S.counts.refs.Keys
    ensures Ready(a) && Grew(a)
    ensures R.Records(a.S) == DeliverAll(old(R.Records(a.S)), m.raw)
  {
    SendAnswerToAll(a, m);
    ReleaseAnswer(a, m);
  }

  method PassToOne(a: Audience, c: Client, m: Message, ghost i: nat, ghost goal: seq<ClientRecord>)
    requires Ready(a) && m in a.S.hold && m in a.S.counts.refs && i < |a.S.listed| && c == a.S.listed[i]
    requires goal == R.Answered(R.Records(a.S), i, m.raw)
    modifies a, a.list, a.S.clients.Keys, a.Nodes, a.S.counts.refs.Keys
    ensures Ready(a) && Grew(a) && R.Records(a.S) == goal
  {
    SendAnswerToOne(a, c, m, i, goal);
    ReleaseAnswer(a, m);
  }

  /** An answer is made, sent to every client and released. */
  method TellAll(a: Audience, raw: Raw)
    requires Ready(a)
    modifies a, a.list, a.S.clients.Keys, a.Nodes, a.S.counts.refs.Keys
    ensures Ready(a) && Grew(a)
    ensures R.Records(a.S) == DeliverAll(old(R.Records(a.S)), raw)
  {
    var m := MakeAnswer(a, raw);
    PassToAll(a, m);
  }

  /** The client is the i-th, and `goal` are the records after it got an answer. */
  ghost predicate Asked(a: Audience, c: Client, raw: Raw, i: nat, goal: seq<ClientRecord>)
    reads a
    requires R.Present(a.S)
  {
    i < |a.S.listed| && c == a.S.listed[i] && goal == R.Answered(R.Records(a.S), i, raw)
  }

  /** The same for one client. */
  method TellOne(a: Audience, c: Client, raw: Raw, ghost i: nat, ghost goal: seq<ClientRecord>)
    requires Ready(a) && Asked(a, c, raw, i, goal)
    modifies a, a.list, a.S.clients.Keys, a.Nodes, a.S.counts.refs.Keys
    ensures Ready(a) && Grew(a) && R.Records(a.S) == goal
  {
    var m := MakeAnswer(a, raw);
    PassToOne(a, c, m, i, goal);
  }

  method ChangeMask(a: Audience, c: Client, mask: Word, ghost i: nat)
    requires Ready(a) && i < |a.S.listed| && c == a.S.listed[i]
    modifies a, a.list, a.S.clients.Keys, a.Nodes, a.S.counts.refs.Keys
    ensures Ready(a) && Grew(a)
    ensures R.Records(a.S) == old(R.Records(a.S))[i := old(R.Records(a.S))[i].(mask := mask)]
  {
    ghost var w := a.S;
    R.InvPresent(w);
    F.MaskInv(w, c, mask);
    a.SetMask(c, mask);
    R.ChangedRecords(w, a.S, i, w.clients[c].(mask := mask));
  }

  function WithClient<R>(fw: Firewall<R>, unit: int): Firewall<R> {
    fw.(clients := [ClientRecord(unit, INITIAL_CLASSES, [])] + fw.clients)
  }

  function WithoutClient<R>(fw: Firewall<R>, i: nat): Firewall<R>
    requires i < |fw.clients|
  {
    fw.(clients := RemoveAt(fw.clients, i))
  }

  /** The counters after a client with the mask has left. */
  function CountedOut<R>(fw: Firewall<R>, mask: Word): Firewall<R> {
    fw.(providers := fw.providers - Bit(MESSAGE_CLASS_PROVIDER_OF_RULES in mask),
        infoRules := fw.infoRules - Bit(MESSAGE_CLASS_INFO_RULES in mask),
        infoSockets := fw.infoSockets - Bit(MESSAGE_CLASS_INFO_SOCKETS in mask),
        debugCount := fw.debugCount - Bit(MESSAGE_CLASS_COMMON in mask))
  }

  lemma PartedIs<R>(fw: Firewall<R>, i: nat, found: bool, mask: Word, mid: Firewall<R>, goal: Firewall<R>)
    requires (found <==> i < |fw.clients|) && (found ==> mask == fw.clients[i].mask)
    requires mid == if i < |fw.clients| then WithoutClient(fw, i) else fw
    requires goal == if i < |fw.clients| then Disconnect(fw, i) else fw
    ensures goal == if found then CountedOut(mid, mask) else mid
  {}

  /** A client enters the list. */
  method Enter(a: Audience, unit: int, form: Form, retainFirst: bool) returns (c: Client)
    requires Ready(a)
    modifies a`S, a.list
    ensures Ready(a) && fresh(c) && c.unit == unit && a.S.listed == [c] + old(a.S.listed)
    ensures R.Records(a.S) == [ClientRecord(unit, INITIAL_CLASSES, [])] + old(R.Records(a.S))
  {
    ghost var w := a.S;
    c := a.Connect(unit, form, retainFirst);
    F.ConnectInv(form, w, c, retainFirst);
    R.JoinedRecords(form, w, c, retainFirst);
  }

  /** A client leaves the list. */
  method Leave(a: Audience, c: Client) returns (found: bool)
    requires Ready(a) && c in a.S.clients
    modifies a, a.list, a.S.clients.Keys, a.Nodes, a.S.counts.refs.Keys
    ensures Ready(a) && found == (c in old(a.S.listed))
    ensures found ==> var i := IndexOf(old(a.S.listed), c);
              a.S.listed == RemoveAt(old(a.S.listed), i) && R.Records(a.S) == RemoveAt(old(R.Records(a.S)), i)
    ensures !found ==> a.S == old(a.S)
  {
    ghost var w := a.S;
    ExitCovers(w, c);
    found := a.Disconnect(c, F.Remains(F.Unlist(w.clients[c])));
    if found {
      R.InvPresent(w);
      F.DisconnectInv(w, c);
      R.PartedRecords(w, a.S, IndexOf(w.listed, c), F.Buried(F.Unlist(w.clients[c])));
    }
  }

  class KernelControl {
    var firewallUp: bool
    var closing: bool
    var countSubscribersAsaProviderOfRules: int
    var countSubscribersForInfoRules: int
    var countSubscribersForInfoSockets: int
    var countSubscribersForDebug: int
    const audience: Audience
    const rules: RH.Rules

    ghost function Repr(): set<object>
      reads this, audience, rules
    {
      {this} + audience.Repr() + rules.Repr()
    }

    ghost predicate Valid()
      reads this, audience, audience.list, audience.S.clients.Keys, audience.Nodes`next, audience.S.counts.refs.Keys
      reads rules, rules.S.counts.refs.Keys, rules.S.data.Keys
    {
      Ready(audience) && R.DistinctUnits(audience.S.listed) && rules.Coupled() && RT.Inv(rules.S)
    }

    ghost function Abs(): Firewall<Rule>
      reads this, audience, rules
      requires R.Present(audience.S)
    {
      Firewall(firewallUp, R.Records(audience.S), countSubscribersAsaProviderOfRules, countSubscribersForInfoRules,
               countSubscribersForInfoSockets, countSubscribersForDebug, rules.S)
    }

    /** The firewall after the extension is loaded, around an empty list of clients and an empty table of rules. */
    constructor (audience: Audience, rules: RH.Rules)
      requires audience.Coupled() && audience.S == F.Empty() && rules.Coupled() && rules.S == RT.Empty()
      ensures this.audience == audience && this.rules == rules
      ensures Valid() && Abs() == Start() && !closing
    {
      NobodyYet(audience, rules);
      this.audience, this.rules := audience, rules;
      firewallUp, closing := false, false;
      countSubscribersAsaProviderOfRules, countSubscribersForInfoRules := 0, 0;
      countSubscribersForInfoSockets, countSubscribersForDebug := 0, 0;
    }

    /** The two halves of the heap have no object in common. */
    lemma Separate()
      ensures this !in audience.Repr() && rules !in audience.Repr()
      ensures forall n :: n in rules.S.counts.refs ==> n !in audience.Repr()
      ensures forall n :: n in rules.S.data ==> n !in audience.Repr()
    {}

    // -------------------------------------------------------------- answers

    /** Sending disturbs neither the rules nor the fields. */
    method ReachAll(raw: Raw)
      requires Ready(audience) && rules.Coupled()
      modifies audience.Repr()
      ensures Ready(audience) && Grew(audience)
      ensures R.Records(audience.S) == DeliverAll(old(R.Records(audience.S)), raw)
      ensures rules.Coupled() && rules.S == old(rules.S) && unchanged(this)
    {
      Separate();
      TellAll(audience, raw);
      RH.RulesKept(rules);
    }

    method ReachOne(c: Client, raw: Raw, ghost i: nat, ghost goal: seq<ClientRecord>)
      requires Ready(audience) && rules.Coupled() && Asked(audience, c, raw, i, goal)
      modifies audience.Repr()
      ensures Ready(audience) && Grew(audience)
      ensures R.Records(audience.S) == goal
      ensures rules.Coupled() && rules.S == old(rules.S) && unchanged(this)
    {
      Separate();
      TellOne(audience, c, raw, i, goal);
      RH.RulesKept(rules);
    }

    /** `Firewall::Send`. */
    method Send(raw: Raw)
      requires Valid()
      modifies audience.Repr()
      ensures Valid() && Grew(audience) && rules.S == old(rules.S) && unchanged(this)
      ensures Abs() == Broadcast(old(Abs()), raw)
    {
      ReachAll(raw);
    }

    method SendTo(c: Client, raw: Raw, ghost i: nat)
      requires Valid() && i < |audience.S.listed| && c == audience.S.listed[i]
      modifies audience.Repr()
      ensures Valid() && Grew(audience) && rules.S == old(rules.S) && unchanged(this)
      ensures Abs() == Protocol.Answer(old(Abs()), i, raw)
    {
      ReachOne(c, raw, i, R.Answered(R.Records(audience.S), i, raw));
    }

    /** The inner switch of the rule commands. */
    method Respond(c: Client, result: int, failure: int, kind: Word, messageId: int, ruleId: int, ghost i: nat)
      requires Valid() && i < |audience.S.listed| && c == audience.S.listed[i]
      modifies audience.Repr()
      ensures Valid() && Grew(audience) && rules.S == old(rules.S) && unchanged(this)
      ensures Abs() == Reply(old(Abs()), i, result, failure, kind, messageId, ruleId)
    {
      if result == 0 {
        Send(RuleAnswer(kind, c.unit, messageId, 0, ruleId));
      } else if result == failure {
        SendTo(c, RuleAnswer(kind, c.unit, messageId, ACTION_FAILED, ruleId), i);
      } else if result == 1 {
        SendTo(c, RuleAnswer(kind, c.unit, messageId, 1, ruleId), i);
      }
    }

    // -------------------------------------------------------------- rules

    method TableDelete(form: Form, ruleId: UInt32, now: int) returns (result: int)
      requires Valid() && RT.Known(rules.S)
      modifies rules, rules.S.counts.refs.Keys
      ensures Valid() && audience.S == old(audience.S)
      ensures (rules.S, result) == RT.DeleteRule(form, old(rules.S), ruleId, now)
      ensures rules.S.counts.refs.Keys == old(rules.S.counts.refs.Keys)
    {
      result := rules.DeleteKeeping(form, ruleId, now);
      AudienceKept(audience);
    }

    method TableSwitch(form: Form, activate: bool, ruleId: UInt32, now: int) returns (result: int)
      requires Valid() && RT.Known(rules.S)
      modifies rules, rules.S.counts.refs.Keys
      ensures Valid() && audience.S == old(audience.S)
      ensures (rules.S, result) == if activate then RT.ActivateRule(old(rules.S), ruleId, now)
                                   else RT.DeactivateRule(form, old(rules.S), ruleId, now)
      ensures rules.S.counts.refs.Keys == old(rules.S.counts.refs.Keys)
    {
      result := rules.SwitchKeeping(form, activate, ruleId, now);
      AudienceKept(audience);
    }

    /** The rule is added and the reference the addition lent is given back. */
    method TableAdd(form: Form, data: RT.RuleData, state: UInt8, memory: bool, now: int)
      returns (result: int, ghost node: Option<Rule>)
      requires Valid() && RT.Known(rules.S)
      modifies rules, rules.S.counts.refs.Keys
      ensures Valid() && audience.S == old(audience.S)
      ensures node.Some? <==> memory
      ensures node.Some? ==> fresh(node.value) && node.value !in old(rules.S.counts.refs)
      ensures (rules.S, result) == RT.AddReleased(form, old(rules.S), node, data, state, now)
      ensures rules.S.counts.refs.Keys == old(rules.S.counts.refs.Keys) + if node.Some? then {node.value} else {}
    {
      ghost var after;
      result, node, after := rules.AddAndRelease(form, data, state, memory, now);
      AudienceKept(audience);
    }

    // -------------------------------------------------------------- commands

    /** The client that sends the command is the i-th. */
    ghost predicate Sender(c: Client, i: nat)
      reads audience
    {
      i < |audience.S.listed| && c == audience.S.listed[i]
    }

    method HandleDelete(form: Form, c: Client, messageId: UInt32, ruleId: UInt32, now: int, ghost i: nat,
                        ghost goal: Firewall<Rule>)
      requires Valid() && Sender(c, i) && RT.Known(rules.S)
      requires goal == ExecuteDelete(form, Abs(), i, messageId, ruleId, now)
      modifies audience.Repr(), rules.Repr()
      ensures Valid() && Grew(audience) && unchanged(this) && Abs() == goal
      ensures rules.S.counts.refs.Keys == old(rules.S.counts.refs.Keys)
    {
      var result := TableDelete(form, ruleId, now);
      Respond(c, result, 1, RULE_DELETED, messageId, ruleId, i);
    }

    method HandleAdd(form: Form, c: Client, data: RT.RuleData, state: UInt8, kernel: Kernel, ghost i: nat)
      returns (ghost node: Option<Rule>)
      requires Valid() && Sender(c, i) && RT.Known(rules.S)
      modifies audience.Repr(), rules.Repr()
      ensures Valid() && Grew(audience) && unchanged(this) && (node.Some? <==> kernel.ruleMemory)
      ensures node.Some? ==> fresh(node.value) && node.value !in old(rules.S.counts.refs)
      ensures rules.S.counts.refs.Keys == old(rules.S.counts.refs.Keys) + if node.Some? then {node.value} else {}
      ensures Abs() == ExecuteAdd(form, old(Abs()), i, data, state, Supply(true, node, kernel.now))
    {
      var result;
      ghost var goal;
      result, node, goal := AddFor(form, data, state, kernel, i);
      AnswerAdd(c, result, data.id, i, goal);
    }

    /** The addition; `goal` is what its answer leads to. */
    method AddFor(form: Form, data: RT.RuleData, state: UInt8, kernel: Kernel, ghost i: nat)
      returns (result: int, ghost node: Option<Rule>, ghost goal: Firewall<Rule>)
      requires Valid() && i < |audience.S.listed| && RT.Known(rules.S)
      modifies rules, rules.S.counts.refs.Keys
      ensures Valid() && audience.S == old(audience.S) && (node.Some? <==> kernel.ruleMemory)
      ensures node.Some? ==> fresh(node.value) && node.value !in old(rules.S.counts.refs)
      ensures rules.S.counts.refs.Keys == old(rules.S.counts.refs.Keys) + if node.Some? then {node.value} else {}
      ensures goal == ExecuteAdd(form, old(Abs()), i, data, state, Supply(true, node, kernel.now))
      ensures goal == Reply(Abs(), i, result, -1, RULE_ADDED, data.id, 0)
    {
      ghost var fw := Abs();
      result, node := TableAdd(form, data, state, kernel.ruleMemory, kernel.now);
      goal := ExecuteAdd(form, fw, i, data, state, Supply(true, node, kernel.now));
    }

    method AnswerAdd(c: Client, result: int, id: UInt32, ghost i: nat, ghost goal: Firewall<Rule>)
      requires Valid() && Sender(c, i) && goal == Reply(Abs(), i, result, -1, RULE_ADDED, id, 0)
      modifies audience.Repr()
      ensures Valid() && Grew(audience) && rules.S == old(rules.S) && unchanged(this) && Abs() == goal
    {
      Respond(c, result, -1, RULE_ADDED, id, 0, i);
    }

    method HandleActivate(form: Form, c: Client, messageId: UInt32, ruleId: UInt32, now: int, ghost i: nat,
                          ghost goal: Firewall<Rule>)
      requires Valid() && Sender(c, i) && RT.Known(rules.S)
      requires goal == ExecuteActivate(Abs(), i, messageId, ruleId, now)
      modifies audience.Repr(), rules.Repr()
      ensures Valid() && Grew(audience) && unchanged(this) && Abs() == goal
      ensures rules.S.counts.refs.Keys == old(rules.S.counts.refs.Keys)
    {
      var result := TableSwitch(form, true, ruleId, now);
      Respond(c, result, -1, RULE_ACTIVATED, messageId, ruleId, i);
    }

    method HandleDeactivate(form: Form, c: Client, messageId: UInt32, ruleId: UInt32, now: int, ghost i: nat,
                            ghost goal: Firewall<Rule>)
      requires Valid() && Sender(c, i) && RT.Known(rules.S)
      requires goal == ExecuteDeactivate(form, Abs(), i, messageId, ruleId, now)
      modifies audience.Repr(), rules.Repr()
      ensures Valid() && Grew(audience) && unchanged(this) && Abs() == goal
      ensures rules.S.counts.refs.Keys == old(rules.S.counts.refs.Keys)
    {
      var result := TableSwitch(form, false, ruleId, now);
      Respond(c, result, -1, RULE_DEACTIVATED, messageId, ruleId, i);
    }

    method Announce(up: bool, raw: Raw, ghost goal: Firewall<Rule>)
      requires Valid() && goal == Broadcast(Abs().(up := up), raw)
      modifies this`firewallUp, audience.Repr()
      ensures Valid() && Grew(audience) && rules.S == old(rules.S) && Abs() == goal
      ensures closing == old(closing)
    {
      firewallUp := up;
      Send(raw);
    }

    method HandleSwitch(c: Client, messageId: UInt32, up: bool, kind: Word, ghost i: nat, ghost goal: Firewall<Rule>)
      requires Valid() && Sender(c, i) && goal == ExecuteSwitch(Abs(), i, messageId, up, kind)
      modifies this`firewallUp, audience.Repr()
      ensures Valid() && Grew(audience) && rules.S == old(rules.S) && Abs() == goal
      ensures closing == old(closing)
    {
      if firewallUp != up {
        Announce(up, PlainAnswer(kind, c.unit, messageId, 0), goal);
      } else {
        SendTo(c, PlainAnswer(kind, c.unit, messageId, 1), i);
      }
    }

    /** The three subscription counters. */
    method Tally(topic: Topic, change: int)
      requires R.Present(audience.S)
      modifies this
      ensures closing == old(closing) && Abs() == Count(old(Abs()), topic, change)
    {
      match topic {
        case ProviderOfRules =>
          countSubscribersAsaProviderOfRules := countSubscribersAsaProviderOfRules + change;
        case InfoRules =>
          countSubscribersForInfoRules := countSubscribersForInfoRules + change;
        case InfoSockets =>
          countSubscribersForInfoSockets := countSubscribersForInfoSockets + change;
      }
    }

    method CountTopic(topic: Topic, change: int)
      requires Valid()
      modifies this
      ensures Valid() && closing == old(closing) && Abs() == Count(old(Abs()), topic, change)
    {
      Tally(topic, change);
    }

    /** The mask of the sender. */
    method Remask(c: Client, mask: Word, ghost i: nat)
      requires Valid() && Sender(c, i)
      modifies audience.Repr()
      ensures Valid() && Grew(audience) && rules.S == old(rules.S) && unchanged(this)
      ensures Abs() == old(Abs()).(clients := old(Abs()).clients[i := old(Abs()).clients[i].(mask := mask)])
    {
      Separate();
      ChangeMask(audience, c, mask, i);
      RH.RulesKept(rules);
    }

    method HandleMask(c: Client, messageId: UInt32, topic: Topic, mask: Word, success: bool, change: int, kind: Word,
                      ghost i: nat, ghost goal: Firewall<Rule>)
      requires Valid() && Sender(c, i)
      requires goal == ExecuteMask(Abs(), i, messageId, topic, mask, success, change, kind)
      modifies this, audience.Repr()
      ensures Valid() && Grew(audience) && rules.S == old(rules.S) && Abs() == goal
      ensures closing == old(closing)
    {
      Remask(c, mask, i);
      if success {
        CountTopic(topic, change);
      }
      SendTo(c, PlainAnswer(kind, c.unit, messageId, if success then 0 else 1), i);
    }

    /** `RegisterMessageClasses` and `UnregisterMessageClasses` with what their callers do. */
    method HandleSubscription(form: Form, c: Client, subscribe: bool, messageId: UInt32, topic: Topic, ghost i: nat,
                              ghost goal: Firewall<Rule>)
      requires Valid() && Sender(c, i)
      requires goal == if subscribe then ExecuteSubscribe(form, Abs(), i, messageId, topic)
                       else ExecuteUnsubscribe(form, Abs(), i, messageId, topic)
      modifies this, audience.Repr()
      ensures Valid() && Grew(audience) && rules.S == old(rules.S) && Abs() == goal
      ensures closing == old(closing)
    {
      MaskOf(audience, c, i);
      if subscribe {
        var (mask, success) := Register(form, c.registredMessageClases, TopicBit(topic));
        HandleMask(c, messageId, topic, mask, success, 1, SubscribeKind(topic), i, goal);
      } else {
        var (mask, success) := Unregister(form, c.registredMessageClases, TopicBit(topic));
        HandleMask(c, messageId, topic, mask, success, -1, UnsubscribeKind(topic), i, goal);
      }
    }

    /** The commands that need no new object but their answer. */
    method DispatchPlain(form: Form, c: Client, command: Command, now: int, ghost i: nat, ghost goal: Firewall<Rule>)
      requires Valid() && Sender(c, i) && RT.Known(rules.S) && !command.AddRule?
      requires goal == Execute(form, Abs(), i, command, Supply(true, None, now))
      modifies Repr()
      ensures Valid() && Grew(audience) && closing == old(closing) && Abs() == goal
      ensures rules.S.counts.refs.Keys == old(rules.S.counts.refs.Keys)
    {
      match command {
        case DeleteRule(messageId, ruleId) => HandleDelete(form, c, messageId, ruleId, now, i, goal);
        case ActivateRule(messageId, ruleId) => HandleActivate(form, c, messageId, ruleId, now, i, goal);
        case DeactivateRule(messageId, ruleId) => HandleDeactivate(form, c, messageId, ruleId, now, i, goal);
        case ActivateFirewall(messageId) => HandleSwitch(c, messageId, true, FIREWALL_ACTIVATED, i, goal);
        case DeactivateFirewall(messageId) => HandleSwitch(c, messageId, false, DeactivatedKind(form), i, goal);
        case Subscribe(messageId, topic) => HandleSubscription(form, c, true, messageId, topic, i, goal);
        case Unsubscribe(messageId, topic) => HandleSubscription(form, c, false, messageId, topic, i, goal);
        case Unknown =>
      }
    }

    /** One iteration of the loop of `KcSend`: nothing is done when the answer cannot be allocated. */
    method Dispatch(form: Form, c: Client, command: Command, kernel: Kernel, ghost i: nat)
      returns (ghost supply: Supply<Rule>)
      requires Valid() && Sender(c, i) && RT.Known(rules.S)
      modifies Repr()
      ensures Valid() && Grew(audience) && closing == old(closing) && Supplied(command, kernel, supply)
      ensures supply.node.Some? ==> fresh(supply.node.value) && supply.node.value !in old(rules.S.counts.refs)
      ensures rules.S.counts.refs.Keys
           == old(rules.S.counts.refs.Keys) + if supply.node.Some? then {supply.node.value} else {}
      ensures Abs() == Execute(form, old(Abs()), i, command, supply)
    {
      supply := Supply(kernel.memory, None, kernel.now);
      if kernel.memory {
        if command.AddRule? {
          ghost var node := HandleAdd(form, c, command.data, command.state, kernel, i);
          supply := Supply(true, node, kernel.now);
        } else {
          DispatchPlain(form, c, command, kernel.now, i, Execute(form, Abs(), i, command, supply));
        }
      }
    }

    // -------------------------------------------------------------- connecting and disconnecting

    /** Entering disturbs neither the rules nor the fields. */
    method Admit(unit: int, form: Form, retainFirst: bool) returns (client: Client)
      requires Ready(audience) && rules.Coupled() && R.DistinctUnits(audience.S.listed)
      requires forall c :: c in audience.S.listed ==> c.unit != unit
      modifies audience.Repr()
      ensures Ready(audience) && R.DistinctUnits(audience.S.listed)
      ensures rules.Coupled() && rules.S == old(rules.S) && unchanged(this)
      ensures fresh(client) && client.unit == unit && audience.S.listed == [client] + old(audience.S.listed)
      ensures R.Records(audience.S) == [ClientRecord(unit, INITIAL_CLASSES, [])] + old(R.Records(audience.S))
    {
      Separate();
      R.DistinctWith(audience.S.listed, unit);
      client := Enter(audience, unit, form, retainFirst);
      RH.RulesKept(rules);
    }

    method Enlist(unit: int, form: Form, retainFirst: bool, ghost goal: Firewall<Rule>) returns (client: Client)
      requires Valid() && (forall c :: c in audience.S.listed ==> c.unit != unit) && goal == WithClient(Abs(), unit)
      modifies audience.Repr()
      ensures Valid() && rules.S == old(rules.S) && unchanged(this) && Abs() == goal
      ensures fresh(client) && client.unit == unit && audience.S.listed == [client] + old(audience.S.listed)
    {
      client := Admit(unit, form, retainFirst);
    }

    method CountJoined(ghost goal: Firewall<Rule>)
      requires Valid() && goal == Abs().(debugCount := Abs().debugCount + 1)
      modifies this
      ensures Valid() && closing == old(closing) && Abs() == goal
    {
      CountDebug(1);
    }

    /** `KcConnect`: it fails while the firewall closes and when the client cannot be made. */
    method KcConnect(unit: int, memory: bool, form: Form, retainFirst: bool) returns (client: Client?)
      requires Valid() && forall c :: c in audience.S.listed ==> c.unit != unit
      modifies this, audience.Repr()
      ensures Valid() && rules.S == old(rules.S) && closing == old(closing) && (client == null <==> closing || !memory)
      ensures client == null ==> audience.S == old(audience.S) && Abs() == old(Abs())
      ensures client != null ==> fresh(client) && client.unit == unit && Abs() == Connect(old(Abs()), unit)
                                 && audience.S.listed == [client] + old(audience.S.listed)
    {
      client := null;
      if !closing && memory {
        ghost var goal := Connect(Abs(), unit);
        client := Enlist(unit, form, retainFirst, WithClient(Abs(), unit));
        CountJoined(goal);
      }
    }

    method CountDebug(change: int)
      requires R.Present(audience.S)
      modifies this
      ensures closing == old(closing) && Abs() == old(Abs()).(debugCount := old(Abs()).debugCount + change)
    {
      countSubscribersForDebug := countSubscribersForDebug + change;
    }

    /** The counter of one class goes down when the mask has it. */
    method CountDown(topic: Topic, mask: Word)
      requires R.Present(audience.S)
      modifies this
      ensures closing == old(closing) && Abs() == Count(old(Abs()), topic, -Bit(TopicBit(topic) in mask))
    {
      if TopicBit(topic) in mask {
        Tally(topic, -1);
      }
    }

    /** The counters of a client that leaves. */
    method CountOut(mask: Word, ghost goal: Firewall<Rule>)
      requires R.Present(audience.S) && goal == CountedOut(Abs(), mask)
      modifies this
      ensures closing == old(closing) && Abs() == goal
    {
      CountDown(ProviderOfRules, mask);
      CountDown(InfoRules, mask);
      CountDown(InfoSockets, mask);
      CountDebug(-Bit(MESSAGE_CLASS_COMMON in mask));
    }

    /** Leaving disturbs neither the rules nor the fields. */
    method Withdraw(client: Client, ghost i: nat) returns (found: bool, mask: Word)
      requires Ready(audience) && rules.Coupled() && client in audience.S.clients && R.DistinctUnits(audience.S.listed)
      requires i == IndexOf(audience.S.listed, client)
      modifies audience.Repr()
      ensures Ready(audience) && R.DistinctUnits(audience.S.listed)
      ensures rules.Coupled() && rules.S == old(rules.S) && unchanged(this)
      ensures found == (i < |old(audience.S.listed)|)
      ensures !found ==> audience.S == old(audience.S)
      ensures found ==>
                && audience.S.listed == RemoveAt(old(audience.S.listed), i)
                && mask == old(R.Records(audience.S))[i].mask
                && R.Records(audience.S) == RemoveAt(old(R.Records(audience.S)), i)
    {
      Separate();
      mask := client.registredMessageClases;
      if client in audience.S.listed {
        MaskOf(audience, client, i);
        R.DistinctWithout(audience.S.listed, i);
      }
      found := Leave(audience, client);
      RH.RulesKept(rules);
    }

    method Unlist(client: Client, ghost i: nat, ghost goal: Firewall<Rule>) returns (found: bool, mask: Word)
      requires Valid() && client in audience.S.clients && i == IndexOf(audience.S.listed, client)
      requires goal == if i < |audience.S.listed| then WithoutClient(Abs(), i) else Abs()
      modifies audience.Repr()
      ensures Valid() && rules.S == old(rules.S) && unchanged(this) && Abs() == goal
      ensures found == (i < |old(audience.S.listed)|) && (found ==> mask == old(Abs()).clients[i].mask)
      ensures audience.S.listed == if found then RemoveAt(old(audience.S.listed), i) else old(audience.S.listed)
    {
      found, mask := Withdraw(client, i);
    }

    method CountParted(found: bool, mask: Word, ghost mid: Firewall<Rule>, ghost goal: Firewall<Rule>)
      requires Valid() && mid == Abs() && goal == if found then CountedOut(mid, mask) else mid
      modifies this
      ensures Valid() && closing == old(closing) && Abs() == goal
    {
      if found {
        CountOut(mask, goal);
      }
    }

    /** A client leaves, and if it was listed its counters go down. */
    method Part(client: Client, ghost i: nat, ghost goal: Firewall<Rule>)
      requires Valid() && client in audience.S.clients && i == IndexOf(audience.S.listed, client)
      requires goal == if i < |audience.S.listed| then Disconnect(Abs(), i) else Abs()
      modifies this, audience.Repr()
      ensures Valid() && rules.S == old(rules.S) && closing == old(closing) && Abs() == goal
      ensures audience.S.listed
           == if i < |old(audience.S.listed)| then RemoveAt(old(audience.S.listed), i) else old(audience.S.listed)
    {
      ghost var fw := Abs();
      ghost var mid := if i < |audience.S.listed| then WithoutClient(fw, i) else fw;
      var found, mask := Unlist(client, i, mid);
      PartedIs(fw, i, found, mask, mid, goal);
      CountParted(found, mask, mid, goal);
    }

    /** `KcDisconnect`. */
    method KcDisconnect(client: Client?)
      requires Valid() && (client != null ==> client in audience.S.clients)
      modifies this, audience.Repr()
      ensures Valid() && rules.S == old(rules.S) && closing == old(closing)
      ensures client != null && client in old(audience.S.listed) ==>
                var i := Find(old(Abs()).clients, client.unit);
                i < |old(Abs()).clients| && Abs() == Disconnect(old(Abs()), i)
                && audience.S.listed == RemoveAt(old(audience.S.listed), i)
      ensures client == null || client !in old(audience.S.listed) ==> Abs() == old(Abs())
    {
      if client != null {
        ghost var i := IndexOf(audience.S.listed, client);
        if client in audience.S.listed {
          R.FoundByUnit(audience.S, i);
        }
        Part(client, i, if i < |audience.S.listed| then Disconnect(Abs(), i) else Abs());
      }
    }

    // -------------------------------------------------------------- the loop

    /** Objects that have joined are new. */
    twostate predicate Extended()
      reads this, audience, rules
    {
      forall o :: o in Repr() ==> o in old(Repr()) || fresh(o)
    }

    twostate lemma OnlyNew(new node: Option<Rule>)
      requires RT.Shape(old(rules.S)) && RT.Shape(rules.S) && Grew(audience)
      requires rules.S.counts.refs.Keys == old(rules.S.counts.refs.Keys) + if node.Some? then {node.value} else {}
      requires node.Some? ==> fresh(node.value)
      ensures Extended()
    {}

    /** The first commands of the buffer, run with the kernel's decisions in their order, have led from `start` to
        here. */
    ghost predicate Gone(form: Form, start: Firewall<Rule>, unit: int, done: seq<Command>, kernels: seq<Kernel>,
                         supplies: seq<Supply<Rule>>)
      reads this, audience, rules
    {
      && AllSupplied(done, kernels, supplies)
      && R.Present(audience.S) && Reaches(form, start, Events(unit, done, supplies), Abs())
    }

    /** One iteration: the next command of the buffer is executed. */
    method Next(form: Form, c: Client, command: Command, kernels: seq<Kernel>, n: nat, ghost i: nat,
                ghost start: Firewall<Rule>, ghost done: seq<Command>, ghost supplies: seq<Supply<Rule>>)
      returns (ghost supply: Supply<Rule>)
      requires Valid() && Sender(c, i) && n == |done| < |kernels| && Gone(form, start, c.unit, done, kernels, supplies)
      modifies Repr()
      ensures Valid() && Sender(c, i) && Extended() && closing == old(closing)
      ensures Gone(form, start, c.unit, done + [command], kernels, supplies + [supply])
    {
      RT.InvKnown(rules.S);
      R.FoundByUnit(audience.S, i);
      ghost var fw := Abs();
      supply := Dispatch(form, c, command, kernels[n], i);
      OnlyNew(supply.node);
      SuppliedMore(done, kernels, supplies, command, supply);
      OneMore(form, start, c.unit, done, supplies, fw, i, command, supply);
    }

    /** `KcSend`: the commands of the buffer are executed one after the other, in the order of the buffer, unless the
        firewall is closing or the unit has no client. */
    method KcSend(form: Form, client: Client?, data: Bytes, kernels: seq<Kernel>)
      returns (ending: Option<Ending>, ghost supplies: seq<Supply<Rule>>)
      requires Valid() && (client != null ==> client in audience.S.listed) && |CommandsIn(data).0| <= |kernels|
      modifies Repr()
      ensures Valid() && closing == old(closing)
      ensures closing || client == null ==> ending == None && Abs() == old(Abs())
      ensures !closing && client != null ==>
                && ending == Some(CommandsIn(data).1) && AllSupplied(CommandsIn(data).0, kernels, supplies)
                && Reaches(form, old(Abs()), Events(client.unit, CommandsIn(data).0, supplies), Abs())
    {
      ending, supplies := None, [];
      if !closing && client != null {
        WalkStarts(data);
        ghost var all := CommandsIn(data);
        var stop;
        ghost var end, last;
        stop, end, last := Walk(form, client, data, kernels, IndexOf(audience.S.listed, client), Abs(), all,
                                Progress([], all.0, []));
        ending, supplies := Some(stop), last.supplies;
      }
    }

    /** The loop over a buffer has come to a position and has led from `start` to here. */
    ghost predicate Underway(form: Form, start: Firewall<Rule>, c: Client, i: nat, data: Bytes, position: nat,
                             kernels: seq<Kernel>, all: (seq<Command>, Ending), progress: Progress)
      reads this, audience, audience.list, audience.S.clients.Keys, audience.Nodes`next, audience.S.counts.refs.Keys
      reads rules, rules.S.counts.refs.Keys, rules.S.data.Keys
    {
      match progress
      case Progress(done, todo, supplies) =>
        Valid() && Sender(c, i) && |all.0| <= |kernels|
        && Walking(data, position, done, todo, all) && Gone(form, start, c.unit, done, kernels, supplies)
    }

    /** The command that was read, if one was, is executed. */
    method Proceed(form: Form, c: Client, command: Option<Command>, kernels: seq<Kernel>, n: nat, ghost i: nat,
                   ghost start: Firewall<Rule>, ghost data: Bytes, ghost position: nat, ghost next: nat,
                   ghost all: (seq<Command>, Ending), ghost progress: Progress)
      returns (ghost after: Progress)
      requires Underway(form, start, c, i, data, position, kernels, all, progress)
      requires n == |progress.done| && ReadUpTo(data, position, next, command, progress, all)
      modifies Repr()
      ensures Extended() && closing == old(closing)
      ensures if command.None? then after == progress else |after.done| == n + 1
      ensures Underway(form, start, c, i, data, next, kernels, all, after)
    {
      after := progress;
      if command.Some? {
        ghost var supply := Next(form, c, command.value, kernels, n, i, start, progress.done, progress.supplies);
        after := Progress(progress.done + [command.value], progress.todo[1..], progress.supplies + [supply]);
      }
    }

    /** One iteration. */
    method Iterate(form: Form, c: Client, data: Bytes, position: nat, kernels: seq<Kernel>, n: nat, ghost i: nat,
                   ghost start: Firewall<Rule>, ghost all: (seq<Command>, Ending), ghost progress: Progress)
      returns (stop: Option<Ending>, next: nat, ghost after: Progress)
      requires position < |data| && n == |progress.done|
      requires Underway(form, start, c, i, data, position, kernels, all, progress)
      modifies Repr()
      ensures Extended() && closing == old(closing)
      ensures Underway(form, start, c, i, data, next, kernels, all, after)
      ensures stop.None? ==> next > position && |after.done| == n + 1
      ensures stop.Some? ==> stop.value == all.1 && after.done == all.0
    {
      ReadsNext(data, position, progress, all);
      var (command, behind, ending) := ReadCommand(data, position);
      next := behind;
      after := Proceed(form, c, command, kernels, n, i, start, data, position, next, all, progress);
      stop := if command.Some? then None else Some(ending);
    }

    /** The loop; `all` is what the buffer holds. */
    method Walk(form: Form, c: Client, data: Bytes, kernels: seq<Kernel>, ghost i: nat, ghost start: Firewall<Rule>,
                ghost all: (seq<Command>, Ending), ghost first: Progress)
      returns (ending: Ending, ghost end: nat, ghost last: Progress)
      requires first.done == [] && Underway(form, start, c, i, data, 0, kernels, all, first)
      modifies Repr()
      ensures closing == old(closing) && ending == all.1 && last.done == all.0
      ensures Underway(form, start, c, i, data, end, kernels, all, last)
    {
      var position, n := 0, 0;
      last := first;
      while position < |data|
        invariant Extended() && closing == old(closing) && n == |last.done|
        invariant Underway(form, start, c, i, data, position, kernels, all, last)
        decreases |data| - position
      {
        var stop, next;
        stop, next, last := Iterate(form, c, data, position, kernels, n, i, start, all, last);
        if stop.Some? {
          return stop.value, next, last;
        }
        position, n := next, n + 1;
      }
      WalkedThrough(data, position, last.done, last.todo, all);
      ending, end := if position > |data| then Overrun else Complete, position;
    }
  }

  /** The kernel's decisions went to the commands in their order. */
  ghost predicate AllSupplied<R>(commands: seq<Command>, kernels: seq<Kernel>, supplies: seq<Supply<R>>) {
    && |supplies| == |commands| <= |kernels|
    && forall k :: 0 <= k < |commands| ==> Supplied(commands[k], kernels[k], supplies[k])
  }

  lemma SuppliedMore<R>(commands: seq<Command>, kernels: seq<Kernel>, supplies: seq<Supply<R>>, command: Command,
                        supply: Supply<R>)
    requires AllSupplied(commands, kernels, supplies) && |commands| < |kernels|
    requires Supplied(command, kernels[|commands|], supply)
    ensures AllSupplied(commands + [command], kernels, supplies + [supply])
  {}

  /** The commands before a position are done, and those from it on are to do. */
  ghost predicate Walking(data: Bytes, position: nat, done: seq<Command>, todo: seq<Command>,
                          all: (seq<Command>, Ending))
  {
    CommandsFrom(data, position) == (todo, all.1) && all.0 == done + todo
  }

  lemma WalkStarts(data: Bytes)
    ensures Walking(data, 0, [], CommandsIn(data).0, CommandsIn(data))
  {
    assert data[0..] == data;
  }

  lemma WalkedOn(data: Bytes, position: nat, next: nat, done: seq<Command>, todo: seq<Command>,
                 all: (seq<Command>, Ending), command: Command)
    requires Walking(data, position, done, todo, all) && todo != [] && todo[0] == command
    requires CommandsFrom(data, next) == (todo[1..], all.1)
    ensures Walking(data, next, done + [command], todo[1..], all) && |done| < |all.0|
  {
    assert done + todo == done + [command] + todo[1..];
  }

  lemma WalkedThrough(data: Bytes, position: nat, done: seq<Command>, todo: seq<Command>, all: (seq<Command>, Ending))
    requires Walking(data, position, done, todo, all) && position >= |data|
    ensures done == all.0 && all.1 == if position > |data| then Overrun else Complete
  {}

  /** The command at a position and the position behind its frame, or why the loop goes no further. */
  function ReadCommand(data: Bytes, position: nat): (Option<Command>, nat, Ending)
    requires position < |data|
  {
    var rest := data[position..];
    if |rest| < HEADER then (None, position, Truncated)
    else if Decode(rest).None? then (None, position, Unreadable)
    else if U16(rest, 0) == 0 then (None, position, Endless)
    else (Decode(rest), position + U16(rest, 0), Complete)
  }

  /** A command was read, and the position is behind it; or none was. */
  ghost predicate ReadUpTo(data: Bytes, position: nat, next: nat, command: Option<Command>, progress: Progress,
                           all: (seq<Command>, Ending))
  {
    if command.None? then next == position
    else
      && next > position && |progress.done| < |all.0| && progress.todo != []
      && Walking(data, next, progress.done + [command.value], progress.todo[1..], all)
  }

  /** One more command of the buffer is read. */
  lemma ReadsNext(data: Bytes, position: nat, progress: Progress, all: (seq<Command>, Ending))
    requires position < |data| && Walking(data, position, progress.done, progress.todo, all)
    ensures var (command, next, stop) := ReadCommand(data, position);
      && ReadUpTo(data, position, next, command, progress, all)
      && (command.None? ==> progress.done == all.0 && stop == all.1)
  {
    CommandsStep(data, position);
    var (command, next, stop) := ReadCommand(data, position);
    if command.Some? {
      WalkedOn(data, position, next, progress.done, progress.todo, all, command.value);
    }
  }

  /** The mask in the object is that of the record. */
  lemma MaskOf(a: Audience, c: Client, i: nat)
    requires Ready(a) && i < |a.S.listed| && c == a.S.listed[i]
    ensures c.registredMessageClases == R.Records(a.S)[i].mask && c.unit == R.Records(a.S)[i].unit
  {
    assert Represents(c, a.S.clients[c], a.Nodes);
  }

  lemma NobodyYet(a: Audience, r: RH.Rules)
    requires a.Coupled() && a.S == F.Empty() && r.S == RT.Empty()
    ensures Ready(a) && R.DistinctUnits(a.S.listed) && R.Records(a.S) == [] && RT.Inv(r.S)
  {
    R.NobodyYet();
  }

  /** What touches none of the objects of the clients leaves them as they are. */
  twostate lemma AudienceKept(a: Audience)
    requires old(Ready(a)) && unchanged(a) && unchanged(a.list)
    requires forall c :: c in a.S.clients ==> unchanged(c)
    requires forall n :: n in a.Nodes ==> n.next == old(n.next)
    requires forall m :: m in a.S.counts.refs ==> m.references == old(m.references) && m.freed == old(m.freed)
    ensures Ready(a)
  {
    assert forall c :: c in a.list.Listed ==> c in a.S.clients;
    ListKept(a.list);
    forall c | c in a.S.clients.Keys
      ensures Represents(c, a.S.clients[c], a.Nodes)
    {
      assert old(Represents(c, a.S.clients[c], a.Nodes));
      Kept(c);
    }
  }

  /** One more command at the end of a run. */
  lemma OneMore<R>(form: Form, start: Firewall<R>, unit: int, done: seq<Command>, supplies: seq<Supply<R>>,
                   fw: Firewall<R>, i: nat, command: Command, supply: Supply<R>)
    requires |done| == |supplies| && Reaches(form, start, Events(unit, done, supplies), fw)
    requires Find(fw.clients, unit) == i < |fw.clients| && RT.Known(fw.rules)
    requires supply.node.Some? ==> supply.node.value !in fw.rules.counts.refs
    ensures Reaches(form, start, Events(unit, done + [command], supplies + [supply]),
                    Execute(form, fw, i, command, supply))
  {
    var last := Events(unit, [command], [supply]);
    assert last == [CommandEvent(unit, command, supply)] && last[1..] == [];
    EventsConcat(unit, done, [command], supplies, [supply]);
    StepRules(form, fw, last[0]);
    ReachesFirst(form, fw, last, Execute(form, fw, i, command, supply));
    ReachesConcat(form, start, Events(unit, done, supplies), fw, last, Execute(form, fw, i, command, supply));
  }

  lemma {:induction false} EventsConcat<R>(unit: int, c: seq<Command>, d: seq<Command>, s: seq<Supply<R>>,
                                           t: seq<Supply<R>>)
    requires |c| == |s| && |d| <= |t|
    ensures Events(unit, c + d, s + t) == Events(unit, c, s) + Events(unit, d, t)
  {
    if c == [] {
      assert c + d == d && s + t == t;
    } else {
      assert (c + d)[1..] == c[1..] + d && (s + t)[1..] == s[1..] + t;
      EventsConcat(unit, c[1..], d, s[1..], t);
    }
  }

  /** Sending two buffers of whole commands in one call is sending them one after the other. */
  lemma SendSplit<R>(form: Form, fw: Firewall<R>, unit: int, a: Bytes, b: Bytes, s: seq<Supply<R>>, t: seq<Supply<R>>)
    requires RT.Inv(fw.rules) && CommandsIn(a).1 == Complete
    requires |CommandsIn(a).0| == |s| && |CommandsIn(b).0| <= |t|
    requires ValidRun(form, fw, Events(unit, CommandsIn(a).0, s))
    requires ValidRun(form, Run(form, fw, Events(unit, CommandsIn(a).0, s)), Events(unit, CommandsIn(b).0, t))
    ensures |CommandsIn(a + b).0| <= |s + t|
    ensures ValidRun(form, fw, Events(unit, CommandsIn(a + b).0, s + t))
    ensures Run(form, fw, Events(unit, CommandsIn(a + b).0, s + t))
         == Run(form, Run(form, fw, Events(unit, CommandsIn(a).0, s)), Events(unit, CommandsIn(b).0, t))
    ensures CommandsIn(a + b).1 == CommandsIn(b).1
  {
    CommandsSplit(a, b);
    EventsConcat(unit, CommandsIn(a).0, CommandsIn(b).0, s, t);
    ProtocolLaws.RunConcat(form, fw, Events(unit, CommandsIn(a).0, s), Events(unit, CommandsIn(b).0, t));
  }

  lemma ReachesNothing<R>(form: Form, fw: Firewall<R>, u: Firewall<R>)
    requires RT.Inv(fw.rules)
    ensures Reaches(form, fw, [], u) <==> u == fw
  {}

  lemma UnknownFirst<R>(form: Form, fw: Firewall<R>, unit: int, rest: seq<Command>, supplies: seq<Supply<R>>,
                        u: Firewall<R>)
    requires RT.Inv(fw.rules) && |rest| < |supplies| && Enabled(fw, CommandEvent(unit, Unknown, supplies[0]))
    ensures Reaches(form, fw, Events(unit, [Unknown] + rest, supplies), u) <==>
            Reaches(form, fw, Events(unit, rest, supplies[1..]), u)
  {
    EventsFirst(unit, Unknown, rest, supplies);
    UnknownApplies(form, fw, unit, supplies[0]);
    ReachesFirst(form, fw, Events(unit, [Unknown] + rest, supplies), u);
  }

  lemma EventsFirst<R>(unit: int, command: Command, rest: seq<Command>, supplies: seq<Supply<R>>)
    requires |rest| < |supplies|
    ensures var events := Events(unit, [command] + rest, supplies);
      && |events| > 0 && events[0] == CommandEvent(unit, command, supplies[0])
      && events[1..] == Events(unit, rest, supplies[1..])
  {
    assert ([command] + rest)[1..] == rest;
  }

  lemma UnknownApplies<R>(form: Form, fw: Firewall<R>, unit: int, supply: Supply<R>)
    requires RT.Inv(fw.rules) && Enabled(fw, CommandEvent(unit, Unknown, supply))
    ensures Apply(form, fw, CommandEvent(unit, Unknown, supply)) == fw
  {}

  /** A frame of a type that is no command is passed over, whatever its size: the firewall reaches what it reaches by
      the bytes behind the frame, or stays as it is when there are none or the size is 0. */
  lemma OtherFrameSkipped<R>(form: Form, fw: Firewall<R>, unit: int, b: Bytes, supplies: seq<Supply<R>>,
                             u: Firewall<R>)
    requires RT.Inv(fw.rules) && OtherType(b) && 1 + |CommandsIn(b).0| <= |supplies|
    requires Enabled(fw, CommandEvent(unit, Unknown, supplies[0]))
    ensures var size := b[0] as int + 256 * b[1] as int;
      if 0 < size <= |b| then
        && |CommandsIn(b[size..]).0| <= |supplies[1..]|
        && (Reaches(form, fw, Events(unit, CommandsIn(b).0, supplies), u) <==>
            Reaches(form, fw, Events(unit, CommandsIn(b[size..]).0, supplies[1..]), u))
      else Reaches(form, fw, Events(unit, CommandsIn(b).0, supplies), u) <==> u == fw
  {
    OtherFrame(b);
    var size := b[0] as int + 256 * b[1] as int;
    if size == 0 {
      ReachesNothing(form, fw, u);
    } else if size > |b| {
      assert [Unknown] + [] == [Unknown];
      UnknownFirst(form, fw, unit, [], supplies, u);
      ReachesNothing(form, fw, u);
    } else {
      UnknownFirst(form, fw, unit, CommandsIn(b[size..]).0, supplies, u);
    }
  }

  /** Frames of other types alone change nothing. */
  lemma {:induction false} OtherFramesChangeNothing<R>(form: Form, fw: Firewall<R>, unit: int, fs: seq<Bytes>,
                                                       supplies: seq<Supply<R>>)
    requires RT.Inv(fw.rules) && |fs| < |supplies|
    requires forall f :: f in fs ==> SelfSized(f) && OtherType(f)
    requires forall s :: s in supplies ==> Enabled(fw, CommandEvent(unit, Unknown, s))
    ensures |CommandsIn(Concat(fs)).0| == |fs| && CommandsIn(Concat(fs)).1 == Complete
    ensures Reaches(form, fw, Events(unit, CommandsIn(Concat(fs)).0, supplies), fw)
  {
    if fs != [] {
      var f, rest := fs[0], Concat(fs[1..]);
      assert f in fs && OtherType(f + rest) && supplies[0] in supplies;
      OtherFramesChangeNothing(form, fw, unit, fs[1..], supplies[1..]);
      U16Extend(f, rest, 0);
      assert (f + rest)[|f|..] == rest;
      OtherTypes(f + rest);
      CommandsAre(f + rest, Unknown, |f|, CommandsIn(rest).0, Complete);
      OtherFrameSkipped(form, fw, unit, f + rest, supplies, fw);
    }
  }
}
