/** The command protocol of the kernel control (Kext/firewall.cpp:695-1060): connecting clients, subscriptions and
    their counters, the state of the firewall, the rule commands and the answers they send. */
module Protocol {
  import opened Common
  import opened Messages
  import opened RuleOrder
  import RT = RuleTable

  /** The three classes a client can subscribe to. */
  datatype Topic = ProviderOfRules | InfoRules | InfoSockets

  function TopicBit(t: Topic): BitIndex {
    match t
    case ProviderOfRules => MESSAGE_CLASS_PROVIDER_OF_RULES
    case InfoRules => MESSAGE_CLASS_INFO_RULES
    case InfoSockets => MESSAGE_CLASS_INFO_SOCKETS
  }

  /** A connected client: its unit, its mask, and the messages `Send` has accepted for it. */
  datatype ClientRecord = ClientRecord(unit: int, mask: Word, inbox: seq<Raw>)

  /** `clients` is the client list, newest first; `counters` the subscriber counts of the three classes and
      `debugCount` that of the debug messages. */
  datatype Firewall<R> = Firewall(
    up: bool,
    clients: seq<ClientRecord>,
    providers: int,
    infoRules: int,
    infoSockets: int,
    debugCount: int,
    rules: RT.Table<R>)

  /** The firewall after the extension is loaded. */
  function Start<R>(): Firewall<R> {
    Firewall(false, [], 0, 0, 0, 0, RT.Empty())
  }

  function Counter<R>(fw: Firewall<R>, t: Topic): int {
    match t
    case ProviderOfRules => fw.providers
    case InfoRules => fw.infoRules
    case InfoSockets => fw.infoSockets
  }

  function Count<R>(fw: Firewall<R>, t: Topic, change: int): Firewall<R> {
    match t
    case ProviderOfRules => fw.(providers := fw.providers + change)
    case InfoRules => fw.(infoRules := fw.infoRules + change)
    case InfoSockets => fw.(infoSockets := fw.infoSockets + change)
  }

  function Masks(clients: seq<ClientRecord>): (r: seq<Word>)
    ensures |r| == |clients|
  {
    if clients == [] then [] else [clients[0].mask] + Masks(clients[1..])
  }

  function Units(clients: seq<ClientRecord>): (r: seq<int>)
    ensures |r| == |clients|
  {
    if clients == [] then [] else [clients[0].unit] + Units(clients[1..])
  }

  /** The place of a unit in the list, or |clients|. */
  function Find(clients: seq<ClientRecord>, unit: int): (i: nat)
    ensures i <= |clients|
    ensures i < |clients| ==> clients[i].unit == unit
    ensures forall j :: 0 <= j < i ==> clients[j].unit != unit
  {
    if clients == [] || clients[0].unit == unit then 0 else 1 + Find(clients[1..], unit)
  }

  /** How many masks have the bit. */
  function CountBit(masks: seq<Word>, bit: BitIndex): nat {
    if masks == [] then 0 else (if bit in masks[0] then 1 else 0) + CountBit(masks[1..], bit)
  }

  // ---------------------------------------------------------------- sending

  /** `Client::Send`, every allocation succeeding. */
  function Deliver(c: ClientRecord, message: Raw): ClientRecord {
    if Wanted(message.kind, c.mask) then c.(inbox := c.inbox + [message]) else c
  }

  function DeliverAll(clients: seq<ClientRecord>, message: Raw): (r: seq<ClientRecord>)
    ensures |r| == |clients|
    ensures forall i :: 0 <= i < |r| ==> r[i] == Deliver(clients[i], message)
  {
    if clients == [] then [] else [Deliver(clients[0], message)] + DeliverAll(clients[1..], message)
  }

  /** `Firewall::Send`. */
  function Broadcast<R>(fw: Firewall<R>, message: Raw): Firewall<R> {
    fw.(clients := DeliverAll(fw.clients, message))
  }

  function Answer<R>(fw: Firewall<R>, i: nat, message: Raw): Firewall<R>
    requires i < |fw.clients|
  {
    fw.(clients := fw.clients[i := Deliver(fw.clients[i], message)])
  }

  // ---------------------------------------------------------------- commands

  const ACTION_FAILED := 0xFFFF_FFFF

  datatype Command =
    | DeleteRule(messageId: UInt32, ruleId: UInt32)
    | AddRule(data: RT.RuleData, state: UInt8)
    | ActivateRule(messageId: UInt32, ruleId: UInt32)
    | DeactivateRule(messageId: UInt32, ruleId: UInt32)
    | ActivateFirewall(messageId: UInt32)
    | DeactivateFirewall(messageId: UInt32)
    | Subscribe(messageId: UInt32, topic: Topic)
    | Unsubscribe(messageId: UInt32, topic: Topic)
    | Unknown

  /** What the kernel supplies while a command runs: whether the answer can be allocated, the new rule object if
      one can be made, and the clock. */
  datatype Supply<R> = Supply(memory: bool, node: Option<R>, now: int)

  function RuleAnswer(kind: Word, unit: int, messageId: int, actionState: int, ruleId: int): Raw {
    Raw(kind, 20, unit, messageId, actionState, ruleId)
  }

  function PlainAnswer(kind: Word, unit: int, messageId: int, actionState: int): Raw {
    Raw(kind, 16, unit, messageId, actionState, 0)
  }

  /** `RegisterMessageClasses`.  As written it reports success when the bits were already set
      (Kext/client.cpp:281); corrected, when they were not. */
  function Register(form: Form, mask: Word, bit: BitIndex): (Word, bool) {
    (mask + {bit}, if form == AsWritten then bit in mask else bit !in mask)
  }

  /** `UnregisterMessageClasses`.  As written it sets all the other bits and reports success when the bits were not
      set (Kext/client.cpp:287); corrected, it clears the bits and reports success when they were set. */
  function Unregister(form: Form, mask: Word, bit: BitIndex): (Word, bool) {
    if form == AsWritten then (mask + (ALL_BITS - {bit}), bit !in mask) else (mask - {bit}, bit in mask)
  }

  /** The type the "deactivated" message is initialised with (Kext/messages.cpp:405). */
  function DeactivatedKind(form: Form): Word {
    if form == AsWritten then FIREWALL_ACTIVATED else FIREWALL_DEACTIVATED
  }

  function SubscribeKind(t: Topic): Word {
    match t
    case ProviderOfRules => SUBSCRIBED_AS_PROVIDER
    case InfoRules => SUBSCRIBED_TO_INFO_RULES
    case InfoSockets => SUBSCRIBED_TO_INFO_SOCKETS
  }

  function UnsubscribeKind(t: Topic): Word {
    match t
    case ProviderOfRules => UNSUBSCRIBED_AS_PROVIDER
    case InfoRules => UNSUBSCRIBED_FROM_INFO_RULES
    case InfoSockets => UNSUBSCRIBED_FROM_INFO_SOCKETS
  }

  /** The answers of the rule commands: success goes to everybody, anything else to the sender.  `failure` is the
      result the caller takes for "not there". */
  function Reply<R>(fw: Firewall<R>, i: nat, result: int, failure: int, kind: Word, messageId: int, ruleId: int)
    : Firewall<R>
    requires i < |fw.clients|
  {
    var unit := fw.clients[i].unit;
    if result == 0 then Broadcast(fw, RuleAnswer(kind, unit, messageId, 0, ruleId))
    else if result == failure then Answer(fw, i, RuleAnswer(kind, unit, messageId, ACTION_FAILED, ruleId))
    else if result == 1 then Answer(fw, i, RuleAnswer(kind, unit, messageId, 1, ruleId))
    else fw
  }

  /** The caller of `DeleteRule` has a case for 0 and a case for 1 only (Kext/firewall.cpp:802-811). */
  function ExecuteDelete<R>(form: Form, fw: Firewall<R>, i: nat, messageId: int, ruleId: UInt32, now: int): Firewall<R>
    requires i < |fw.clients| && RT.Known(fw.rules)
  {
    var (rules, result) := RT.DeleteRule(form, fw.rules, ruleId, now);
    Reply(fw.(rules := rules), i, result, 1, RULE_DELETED, messageId, ruleId)
  }

  /** The caller of `AddRule` puts the rule's own id where the message id belongs and releases its reference. */
  function ExecuteAdd<R>(form: Form, fw: Firewall<R>, i: nat, data: RT.RuleData, state: UInt8, supply: Supply<R>)
    : Firewall<R>
    requires i < |fw.clients| && RT.Known(fw.rules)
    requires supply.node.Some? ==> supply.node.value !in fw.rules.counts.refs
  {
    var (rules, result) := RT.AddReleased(form, fw.rules, supply.node, data, state, supply.now);
    Reply(fw.(rules := rules), i, result, -1, RULE_ADDED, data.id, 0)
  }

  function ExecuteActivate<R>(fw: Firewall<R>, i: nat, messageId: int, ruleId: UInt32, now: int): Firewall<R>
    requires i < |fw.clients| && RT.Known(fw.rules)
  {
    var (rules, result) := RT.ActivateRule(fw.rules, ruleId, now);
    Reply(fw.(rules := rules), i, result, -1, RULE_ACTIVATED, messageId, ruleId)
  }

  function ExecuteDeactivate<R>(form: Form, fw: Firewall<R>, i: nat, messageId: int, ruleId: UInt32, now: int)
    : Firewall<R>
    requires i < |fw.clients| && RT.Known(fw.rules)
  {
    var (rules, result) := RT.DeactivateRule(form, fw.rules, ruleId, now);
    Reply(fw.(rules := rules), i, result, -1, RULE_DEACTIVATED, messageId, ruleId)
  }

  function ExecuteSwitch<R>(fw: Firewall<R>, i: nat, messageId: int, up: bool, kind: Word): Firewall<R>
    requires i < |fw.clients|
  {
    var unit := fw.clients[i].unit;
    if fw.up != up then Broadcast(fw.(up := up), PlainAnswer(kind, unit, messageId, 0))
    else Answer(fw, i, PlainAnswer(kind, unit, messageId, 1))
  }

  /** Both subscription commands: the mask changes, the counter follows the reported success, and the sender gets
      the answer under its new mask. */
  function ExecuteMask<R>(fw: Firewall<R>, i: nat, messageId: int, topic: Topic, mask: Word, success: bool, change: int,
                          kind: Word): Firewall<R>
    requires i < |fw.clients|
  {
    var c := fw.clients[i];
    var changed := fw.(clients := fw.clients[i := c.(mask := mask)]);
    var counted := if success then Count(changed, topic, change) else changed;
    Answer(counted, i, PlainAnswer(kind, c.unit, messageId, if success then 0 else 1))
  }

  function ExecuteSubscribe<R>(form: Form, fw: Firewall<R>, i: nat, messageId: int, topic: Topic): Firewall<R>
    requires i < |fw.clients|
  {
    var (mask, success) := Register(form, fw.clients[i].mask, TopicBit(topic));
    ExecuteMask(fw, i, messageId, topic, mask, success, 1, SubscribeKind(topic))
  }

  function ExecuteUnsubscribe<R>(form: Form, fw: Firewall<R>, i: nat, messageId: int, topic: Topic): Firewall<R>
    requires i < |fw.clients|
  {
    var (mask, success) := Unregister(form, fw.clients[i].mask, TopicBit(topic));
    ExecuteMask(fw, i, messageId, topic, mask, success, -1, UnsubscribeKind(topic))
  }

  /** One iteration of the loop of `KcSend` for the i-th client.  Nothing is done when the answer cannot be
      allocated. */
  function Execute<R>(form: Form, fw: Firewall<R>, i: nat, command: Command, supply: Supply<R>): Firewall<R>
    requires i < |fw.clients| && RT.Known(fw.rules)
    requires supply.node.Some? ==> supply.node.value !in fw.rules.counts.refs
  {
    if !supply.memory then fw
    else
      match command
      case DeleteRule(messageId, ruleId) => ExecuteDelete(form, fw, i, messageId, ruleId, supply.now)
      case AddRule(data, state) => ExecuteAdd(form, fw, i, data, state, supply)
      case ActivateRule(messageId, ruleId) => ExecuteActivate(fw, i, messageId, ruleId, supply.now)
      case DeactivateRule(messageId, ruleId) => ExecuteDeactivate(form, fw, i, messageId, ruleId, supply.now)
      case ActivateFirewall(messageId) => ExecuteSwitch(fw, i, messageId, true, FIREWALL_ACTIVATED)
      case DeactivateFirewall(messageId) => ExecuteSwitch(fw, i, messageId, false, DeactivatedKind(form))
      case Subscribe(messageId, topic) => ExecuteSubscribe(form, fw, i, messageId, topic)
      case Unsubscribe(messageId, topic) => ExecuteUnsubscribe(form, fw, i, messageId, topic)
      case Unknown => fw
  }

  /** `KcConnect`. */
  function Connect<R>(fw: Firewall<R>, unit: int): Firewall<R> {
    fw.(clients := [ClientRecord(unit, INITIAL_CLASSES, [])] + fw.clients,
        debugCount := fw.debugCount + 1)
  }

  /** `KcDisconnect` of the i-th client: it leaves the list, and each counter whose bit it has goes down. */
  function Disconnect<R>(fw: Firewall<R>, i: nat): Firewall<R>
    requires i < |fw.clients|
  {
    var mask := fw.clients[i].mask;
    fw.(clients := RemoveAt(fw.clients, i),
        providers := fw.providers - Bit(MESSAGE_CLASS_PROVIDER_OF_RULES in mask),
        infoRules := fw.infoRules - Bit(MESSAGE_CLASS_INFO_RULES in mask),
        infoSockets := fw.infoSockets - Bit(MESSAGE_CLASS_INFO_SOCKETS in mask),
        debugCount := fw.debugCount - Bit(MESSAGE_CLASS_COMMON in mask))
  }

  // ---------------------------------------------------------------- runs

  datatype Event<R> =
    | ConnectEvent(unit: int)
    | DisconnectEvent(unit: int)
    | CommandEvent(unit: int, command: Command, supply: Supply<R>)

  /** Units are distinct while connected; commands and disconnects come from connected clients. */
  ghost predicate Enabled<R>(fw: Firewall<R>, e: Event<R>) {
    match e
    case ConnectEvent(unit) => Find(fw.clients, unit) == |fw.clients|
    case DisconnectEvent(unit) => Find(fw.clients, unit) < |fw.clients|
    case CommandEvent(unit, _, supply) =>
      && Find(fw.clients, unit) < |fw.clients|
      && (supply.node.Some? ==> supply.node.value !in fw.rules.counts.refs)
  }

  ghost function Apply<R>(form: Form, fw: Firewall<R>, e: Event<R>): Firewall<R>
    requires RT.Inv(fw.rules) && Enabled(fw, e)
  {
    match e
    case ConnectEvent(unit) => Connect(fw, unit)
    case DisconnectEvent(unit) => Disconnect(fw, Find(fw.clients, unit))
    case CommandEvent(unit, command, supply) => Execute(form, fw, Find(fw.clients, unit), command, supply)
  }
}
