/** The layout of the commands a client sends (Shared/messageType.h:63-79 and 778-909) and how `KcSend` reads a
    buffer of them (Kext/firewall.cpp:784-1057). */
module Commands {
  import opened Common
  import opened RuleOrder
  import RT = RuleTable
  import opened Protocol
  import opened Framing

  const TYPE_ADD_RULE: UInt16 := 0x1001
  const TYPE_DELETE_RULE: UInt16 := 0x1002
  const TYPE_ACTIVATE_RULE: UInt16 := 0x1003
  const TYPE_DEACTIVATE_RULE: UInt16 := 0x1004
  const TYPE_ACTIVATE_FIREWALL: UInt16 := 0x1005
  const TYPE_DEACTIVATE_FIREWALL: UInt16 := 0x1006
  const TYPE_SUBSCRIBE_PROVIDER: UInt16 := 0x1007
  const TYPE_UNSUBSCRIBE_PROVIDER: UInt16 := 0x1008
  const TYPE_SUBSCRIBE_INFO_RULES: UInt16 := 0x1009
  const TYPE_UNSUBSCRIBE_INFO_RULES: UInt16 := 0x100A
  const TYPE_SUBSCRIBE_INFO_SOCKETS: UInt16 := 0x100B
  const TYPE_UNSUBSCRIBE_INFO_SOCKETS: UInt16 := 0x100C

  /** The fixed part of an add-rule message, up to `buffer`. */
  const ADD_RULE_FIXED := 29

  /** The bytes from an offset to the terminator; None when the buffer ends before it. */
  function CStringAt(b: Bytes, k: nat): Option<CString>
    decreases |b| - k
  {
    if k >= |b| then None
    else if b[k] == 0 then Some([])
    else
      match CStringAt(b, k + 1)
      case None => None
      case Some(rest) => Some([b[k]] + rest)
  }

  function DecodeAdd(b: Bytes): Option<Command> {
    if |b| < ADD_RULE_FIXED then None
    else
      match (CStringAt(b, U16(b, 12)), CStringAt(b, U16(b, 14)))
      case (Some(processName), Some(filePath)) =>
        var key := Key(processName, filePath, U16(b, 16), U16(b, 18), U16(b, 20), b[26], b[27]);
        Some(AddRule(RT.RuleData(U32(b, 8), key), b[28]))
      case _ => None
  }

  /** The commands that carry a message id, and for the rule commands a rule id. */
  function DecodeFixed(b: Bytes, kind: UInt16): Option<Command>
    requires |b| >= HEADER
  {
    if |b| < 8 then None
    else
      var messageId := U32(b, 4);
      if kind == TYPE_ACTIVATE_FIREWALL then Some(ActivateFirewall(messageId))
      else if kind == TYPE_DEACTIVATE_FIREWALL then Some(DeactivateFirewall(messageId))
      else if kind == TYPE_SUBSCRIBE_PROVIDER then Some(Subscribe(messageId, ProviderOfRules))
      else if kind == TYPE_UNSUBSCRIBE_PROVIDER then Some(Unsubscribe(messageId, ProviderOfRules))
      else if kind == TYPE_SUBSCRIBE_INFO_RULES then Some(Subscribe(messageId, InfoRules))
      else if kind == TYPE_UNSUBSCRIBE_INFO_RULES then Some(Unsubscribe(messageId, InfoRules))
      else if kind == TYPE_SUBSCRIBE_INFO_SOCKETS then Some(Subscribe(messageId, InfoSockets))
      else if kind == TYPE_UNSUBSCRIBE_INFO_SOCKETS then Some(Unsubscribe(messageId, InfoSockets))
      else if |b| < 12 then None
      else if kind == TYPE_DELETE_RULE then Some(DeleteRule(messageId, U32(b, 8)))
      else if kind == TYPE_ACTIVATE_RULE then Some(ActivateRule(messageId, U32(b, 8)))
      else Some(DeactivateRule(messageId, U32(b, 8)))
  }

  /** The command at the head of the buffer.  The fields are read wherever they lie, without regard to the size
      of the frame; None when one of them is not wholly in the buffer. */
  function Decode(b: Bytes): Option<Command>
    requires |b| >= HEADER
  {
    var kind := U16(b, 2);
    if kind == TYPE_ADD_RULE then DecodeAdd(b)
    else if TYPE_DELETE_RULE <= kind <= TYPE_UNSUBSCRIBE_INFO_SOCKETS then DecodeFixed(b, kind)
    else Some(Unknown)
  }

  /** The commands `KcSend` finds in a buffer, and how its loop ends. */
  function CommandsIn(b: Bytes): (seq<Command>, Ending)
    decreases |b|
  {
    if b == [] then ([], Complete)
    else if |b| < HEADER then ([], Truncated)
    else
      match Decode(b)
      case None => ([], Unreadable)
      case Some(command) =>
        var size := U16(b, 0);
        if size == 0 then ([], Endless)
        else if size > |b| then ([command], Overrun)
        else
          var (rest, ending) := CommandsIn(b[size..]);
          ([command] + rest, ending)
  }

  /** What the loop still finds from a position on; past the end of the buffer it stops. */
  function CommandsFrom(b: Bytes, k: nat): (seq<Command>, Ending) {
    if k <= |b| then CommandsIn(b[k..]) else ([], Overrun)
  }

  /** One iteration of the loop. */
  lemma CommandsStep(b: Bytes, k: nat)
    requires k < |b|
    ensures var rest := b[k..];
      var (found, ending) := CommandsFrom(b, k);
      if |rest| < HEADER then found == [] && ending == Truncated
      else if Decode(rest).None? then found == [] && ending == Unreadable
      else if U16(rest, 0) == 0 then found == [] && ending == Endless
      else
        var next := CommandsFrom(b, k + U16(rest, 0));
        |found| == 1 + |next.0| && found[0] == Decode(rest).value && found[1..] == next.0 && ending == next.1
  {
    var rest := b[k..];
    if |rest| >= HEADER && k + U16(rest, 0) <= |b| {
      assert rest[U16(rest, 0)..] == b[k + U16(rest, 0)..];
    }
  }

  // ---------------------------------------------------------------- buffers one after the other

  lemma U16Extend(a: Bytes, b: Bytes, k: nat)
    requires k + 2 <= |a|
    ensures U16(a + b, k) == U16(a, k)
  {}

  lemma U32Extend(a: Bytes, b: Bytes, k: nat)
    requires k + 4 <= |a|
    ensures U32(a + b, k) == U32(a, k)
  {
    U16Extend(a, b, k);
    U16Extend(a, b, k + 2);
  }

  lemma {:induction false} CStringExtend(a: Bytes, b: Bytes, k: nat)
    requires CStringAt(a, k).Some?
    ensures CStringAt(a + b, k) == CStringAt(a, k)
    decreases |a| - k
  {
    if a[k] != 0 {
      CStringExtend(a, b, k + 1);
    }
  }

  /** What follows a readable command does not change it. */
  lemma DecodeExtend(a: Bytes, b: Bytes)
    requires |a| >= HEADER && Decode(a).Some?
    ensures Decode(a + b) == Decode(a)
  {
    U16Extend(a, b, 2);
    var kind := U16(a, 2);
    if kind == TYPE_ADD_RULE {
      U16Extend(a, b, 12);
      U16Extend(a, b, 14);
      CStringExtend(a, b, U16(a, 12));
      CStringExtend(a, b, U16(a, 14));
      U16Extend(a, b, 16);
      U16Extend(a, b, 18);
      U16Extend(a, b, 20);
      U32Extend(a, b, 8);
    } else if TYPE_DELETE_RULE <= kind <= TYPE_UNSUBSCRIBE_INFO_SOCKETS {
      U32Extend(a, b, 4);
      if |a| >= 12 { U32Extend(a, b, 8); }
    }
  }

  /** The first command of a buffer and those behind its frame. */
  lemma CommandsAre(b: Bytes, command: Command, size: nat, rest: seq<Command>, ending: Ending)
    requires |b| >= HEADER && Decode(b) == Some(command) && U16(b, 0) == size && 0 < size <= |b|
    requires CommandsIn(b[size..]) == (rest, ending)
    ensures CommandsIn(b) == ([command] + rest, ending)
  {}

  lemma CommandsFirst(b: Bytes, command: Command)
    requires |b| >= HEADER && Decode(b) == Some(command)
    ensures var size := U16(b, 0);
      CommandsIn(b) ==
        if size == 0 then ([], Endless)
        else if size > |b| then ([command], Overrun)
        else ([command] + CommandsIn(b[size..]).0, CommandsIn(b[size..]).1)
  {}

  lemma CompleteFirst(b: Bytes) returns (command: Command, size: nat, rest: seq<Command>)
    requires b != [] && CommandsIn(b).1 == Complete
    ensures |b| >= HEADER && Decode(b) == Some(command) && U16(b, 0) == size && 0 < size <= |b|
    ensures CommandsIn(b[size..]) == (rest, Complete) && CommandsIn(b) == ([command] + rest, Complete)
  {
    command, size := Decode(b).value, U16(b, 0);
    rest := CommandsIn(b[size..]).0;
  }

  /** A buffer behind a frame adds its commands to those behind the frame. */
  lemma SplitFirst(a: Bytes, b: Bytes, command: Command, size: nat, rest: seq<Command>, more: seq<Command>,
                   ending: Ending)
    requires |a| >= HEADER && Decode(a) == Some(command) && U16(a, 0) == size && 0 < size <= |a|
    requires CommandsIn(a[size..] + b) == (rest + more, ending)
    ensures CommandsIn(a + b) == (([command] + rest) + more, ending)
  {
    DecodeExtend(a, b);
    U16Extend(a, b, 0);
    assert (a + b)[size..] == a[size..] + b;
    CommandsAre(a + b, command, size, rest + more, ending);
    assert ([command] + rest) + more == [command] + (rest + more);
  }

  /** A buffer read to its end and then a second one hold the commands of both, in order. */
  lemma {:induction false} CommandsSplit(a: Bytes, b: Bytes)
    requires CommandsIn(a).1 == Complete
    ensures CommandsIn(a + b).0 == CommandsIn(a).0 + CommandsIn(b).0
    ensures CommandsIn(a + b).1 == CommandsIn(b).1
    decreases |a|
  {
    if a == [] {
      assert a + b == b;
    } else {
      var command, size, rest := CompleteFirst(a);
      CommandsSplit(a[size..], b);
      SplitFirst(a, b, command, size, rest, CommandsIn(b).0, CommandsIn(b).1);
    }
  }

  // ---------------------------------------------------------------- the layout, byte by byte

  /** The three commands on one rule: type 0x1002, 0x1003 or 0x1004 at byte 2, the message's id at byte 4, the rule's at
      byte 8. */
  lemma RuleCommandBytes(b: Bytes)
    requires |b| >= 12 && b[3] == 0x10
    ensures var m, r := Number(b[4], b[5], b[6], b[7]), Number(b[8], b[9], b[10], b[11]);
      && (b[2] == 0x02 ==> Decode(b) == Some(DeleteRule(m, r)))
      && (b[2] == 0x03 ==> Decode(b) == Some(ActivateRule(m, r)))
      && (b[2] == 0x04 ==> Decode(b) == Some(DeactivateRule(m, r)))
  {
    assert U16(b, 2) == 0x1000 + b[2] as int;
    assert U32(b, 4) == Number(b[4], b[5], b[6], b[7]) && U32(b, 8) == Number(b[8], b[9], b[10], b[11]);
  }

  /** The commands that carry no more than the message's id: the types 0x1005 to 0x100C. */
  lemma PlainCommandBytes(b: Bytes)
    requires |b| >= 8 && b[3] == 0x10
    ensures var m := Number(b[4], b[5], b[6], b[7]);
      && (b[2] == 0x05 ==> Decode(b) == Some(ActivateFirewall(m)))
      && (b[2] == 0x06 ==> Decode(b) == Some(DeactivateFirewall(m)))
      && (b[2] == 0x07 ==> Decode(b) == Some(Subscribe(m, ProviderOfRules)))
      && (b[2] == 0x08 ==> Decode(b) == Some(Unsubscribe(m, ProviderOfRules)))
      && (b[2] == 0x09 ==> Decode(b) == Some(Subscribe(m, InfoRules)))
      && (b[2] == 0x0A ==> Decode(b) == Some(Unsubscribe(m, InfoRules)))
      && (b[2] == 0x0B ==> Decode(b) == Some(Subscribe(m, InfoSockets)))
      && (b[2] == 0x0C ==> Decode(b) == Some(Unsubscribe(m, InfoSockets)))
  {
    assert U16(b, 2) == 0x1000 + b[2] as int;
    assert U32(b, 4) == Number(b[4], b[5], b[6], b[7]);
  }

  /** The fields of an add-rule message, type 0x1001: the rule's id at byte 8, the numbers of the socket at 16, 18 and
      20, direction, verdict and state at 26, 27 and 28; the strings begin at the offsets at 12 and 14 and end at
      a 0. */
  lemma AddRuleBytes(b: Bytes)
    requires |b| >= 4 && b[2] == 0x01 && b[3] == 0x10 && Decode(b).Some?
    ensures |b| >= 29 && Decode(b).value.AddRule?
    ensures var AddRule(data, state) := Decode(b).value;
      && data.id == Number(b[8], b[9], b[10], b[11])
      && data.key.sockDomain == b[16] as int + 256 * b[17] as int
      && data.key.sockType == b[18] as int + 256 * b[19] as int
      && data.key.sockProtocol == b[20] as int + 256 * b[21] as int
      && data.key.direction == b[26] && data.key.allow == b[27] && state == b[28]
      && StringAt(b, b[12] as int + 256 * b[13] as int, data.key.processName)
      && StringAt(b, b[14] as int + 256 * b[15] as int, data.key.filePath)
  {
    assert U16(b, 2) == 0x1001;
    assert U32(b, 8) == Number(b[8], b[9], b[10], b[11]);
    CStringIs(b, U16(b, 12));
    CStringIs(b, U16(b, 14));
  }

  /** The bytes of the string lie at the place, and a 0 behind them. */
  predicate StringAt(b: Bytes, k: nat, s: CString) {
    k + |s| < |b| && b[k..k + |s|] == s && b[k + |s|] == 0
  }

  lemma {:induction false} CStringIs(b: Bytes, k: nat)
    ensures CStringAt(b, k).Some? ==> StringAt(b, k, CStringAt(b, k).value)
    decreases |b| - k
  {
    if k < |b| && b[k] != 0 && CStringAt(b, k).Some? {
      CStringIs(b, k + 1);
      var s, rest := CStringAt(b, k).value, CStringAt(b, k + 1).value;
      assert b[k..k + |s|] == [b[k]] + b[k + 1..k + 1 + |rest|];
    }
  }

  /** The type is not one of 0x1001 to 0x100C. */
  predicate OtherType(b: Bytes) {
    |b| >= 4 && !(b[3] == 0x10 && 0x01 <= b[2] <= 0x0C)
  }

  /** A type outside 0x1001 to 0x100C is no command, whatever the frame holds. */
  lemma OtherTypes(b: Bytes)
    requires OtherType(b)
    ensures Decode(b) == Some(Unknown)
  {
    assert U16(b, 2) == b[2] as int + 256 * b[3] as int;
  }

  /** A frame of such a type is passed over by its size. */
  lemma OtherFrame(b: Bytes)
    requires OtherType(b)
    ensures var size := b[0] as int + 256 * b[1] as int;
      CommandsIn(b) ==
        if size == 0 then ([], Endless)
        else if size > |b| then ([Unknown], Overrun)
        else ([Unknown] + CommandsIn(b[size..]).0, CommandsIn(b[size..]).1)
  {
    OtherTypes(b);
    CommandsFirst(b, Unknown);
    assert U16(b, 0) == b[0] as int + 256 * b[1] as int;
  }

  /** A command cannot be read exactly when one of its fields is not wholly inside the buffer. */
  lemma TooShort(b: Bytes)
    requires |b| >= 4 && b[3] == 0x10 && 0x02 <= b[2] <= 0x0C
    ensures Decode(b).None? <==> |b| < if b[2] <= 0x04 then 12 else 8
  {
    assert U16(b, 2) == 0x1000 + b[2] as int;
  }

  /** There is a 0 from the place on. */
  predicate Ends(b: Bytes, k: nat) {
    exists i :: k <= i < |b| && b[i] == 0
  }

  lemma {:induction false} CStringEnds(b: Bytes, k: nat)
    ensures CStringAt(b, k).Some? <==> Ends(b, k)
    decreases |b| - k
  {
    if k < |b| && b[k] != 0 {
      CStringEnds(b, k + 1);
      if Ends(b, k) {
        var i :| k <= i < |b| && b[i] == 0;
        assert k + 1 <= i;
      }
    }
  }

  /** An add-rule message cannot be read exactly when its fields or one of its strings reach past the buffer. */
  lemma AddTooShort(b: Bytes)
    requires |b| >= 4 && b[2] == 0x01 && b[3] == 0x10
    ensures Decode(b).None? <==>
      |b| < 29 || !Ends(b, b[12] as int + 256 * b[13] as int) || !Ends(b, b[14] as int + 256 * b[15] as int)
  {
    assert U16(b, 2) == 0x1001;
    if |b| >= 29 {
      CStringEnds(b, U16(b, 12));
      CStringEnds(b, U16(b, 14));
    }
  }

  /** A frame that states its own size and can be read on its own. */
  predicate Readable(f: Bytes) {
    SelfSized(f) && Decode(f).Some?
  }

  /** The commands of some frames, each read on its own. */
  function Decoded(fs: seq<Bytes>): (r: seq<Command>)
    requires forall i :: 0 <= i < |fs| ==> Readable(fs[i])
    ensures |r| == |fs|
    ensures forall i :: 0 <= i < |fs| ==> Readable(fs[i]) && r[i] == Decode(fs[i]).value
  {
    if fs == [] then [] else
      assert Readable(fs[0]);
      [Decode(fs[0]).value] + Decoded(fs[1..])
  }

  /** A buffer of self-sized frames, each of which can be read on its own, holds exactly their commands. */
  lemma {:induction false} CommandsOfFrames(fs: seq<Bytes>)
    requires forall i :: 0 <= i < |fs| ==> Readable(fs[i])
    ensures CommandsIn(Concat(fs)) == (Decoded(fs), Complete)
  {
    if fs != [] {
      var f, rest := fs[0], Concat(fs[1..]);
      CommandsOfFrames(fs[1..]);
      DecodeExtend(f, rest);
      U16Extend(f, rest, 0);
      assert (f + rest)[|f|..] == rest;
      CommandsAre(f + rest, Decode(f).value, |f|, Decoded(fs[1..]), Complete);
    }
  }

  // ---------------------------------------------------------------- what the client library writes

  function Frame(kind: UInt16, body: Bytes): Bytes
    requires |body| + HEADER < 0x1_0000
  {
    Bytes16(|body| + HEADER) + Bytes16(kind) + body
  }

  function SubscribeType(t: Topic): UInt16 {
    match t
    case ProviderOfRules => TYPE_SUBSCRIBE_PROVIDER
    case InfoRules => TYPE_SUBSCRIBE_INFO_RULES
    case InfoSockets => TYPE_SUBSCRIBE_INFO_SOCKETS
  }

  function UnsubscribeType(t: Topic): UInt16 {
    match t
    case ProviderOfRules => TYPE_UNSUBSCRIBE_PROVIDER
    case InfoRules => TYPE_UNSUBSCRIBE_INFO_RULES
    case InfoSockets => TYPE_UNSUBSCRIBE_INFO_SOCKETS
  }

  /** The `Init` functions of the messages of fixed size. */
  function Encode(command: Command): Bytes
    requires !command.AddRule? && !command.Unknown?
  {
    match command
    case DeleteRule(messageId, ruleId) => Frame(TYPE_DELETE_RULE, Bytes32(messageId) + Bytes32(ruleId))
    case ActivateRule(messageId, ruleId) => Frame(TYPE_ACTIVATE_RULE, Bytes32(messageId) + Bytes32(ruleId))
    case DeactivateRule(messageId, ruleId) => Frame(TYPE_DEACTIVATE_RULE, Bytes32(messageId) + Bytes32(ruleId))
    case ActivateFirewall(messageId) => Frame(TYPE_ACTIVATE_FIREWALL, Bytes32(messageId))
    case DeactivateFirewall(messageId) => Frame(TYPE_DEACTIVATE_FIREWALL, Bytes32(messageId))
    case Subscribe(messageId, topic) => Frame(SubscribeType(topic), Bytes32(messageId))
    case Unsubscribe(messageId, topic) => Frame(UnsubscribeType(topic), Bytes32(messageId))
  }

  /** Eight bytes: the size 8, the type 0x1000 + low, the message id. */
  predicate PlainBytes(b: Bytes, low: Byte, m: UInt32) {
    |b| == 8 && b[..4] == [8, 0, low, 0x10] && NumberAt(b, 4, m)
  }

  /** Twelve bytes: the size 12, the type 0x1000 + low, the message id, the rule id. */
  predicate RuleBytes(b: Bytes, low: Byte, m: UInt32, r: UInt32) {
    |b| == 12 && b[..4] == [12, 0, low, 0x10] && NumberAt(b, 4, m) && NumberAt(b, 8, r)
  }

  lemma Bytes32At(n: UInt32)
    ensures NumberAt(Bytes32(n), 0, n)
  {}

  lemma PlainFrame(low: Byte, m: UInt32)
    ensures PlainBytes(Frame(0x1000 + low as int, Bytes32(m)), low, m)
  {
    Bytes32At(m);
    assert Frame(0x1000 + low as int, Bytes32(m)) == [8, 0, low, 0x10] + Bytes32(m);
  }

  lemma RuleFrame(low: Byte, m: UInt32, r: UInt32)
    ensures RuleBytes(Frame(0x1000 + low as int, Bytes32(m) + Bytes32(r)), low, m, r)
  {
    Bytes32At(m);
    Bytes32At(r);
    assert Frame(0x1000 + low as int, Bytes32(m) + Bytes32(r)) == [12, 0, low, 0x10] + (Bytes32(m) + Bytes32(r));
  }

  /** What is written, byte by byte: size, type, message id and rule id. */
  lemma EncodeBytes(command: Command)
    requires !command.AddRule? && !command.Unknown?
    ensures var b := Encode(command);
      match command
      case DeleteRule(m, r) => RuleBytes(b, 0x02, m, r)
      case ActivateRule(m, r) => RuleBytes(b, 0x03, m, r)
      case DeactivateRule(m, r) => RuleBytes(b, 0x04, m, r)
      case ActivateFirewall(m) => PlainBytes(b, 0x05, m)
      case DeactivateFirewall(m) => PlainBytes(b, 0x06, m)
      case Subscribe(m, topic) =>
        PlainBytes(b, if topic.ProviderOfRules? then 0x07 else if topic.InfoRules? then 0x09 else 0x0B, m)
      case Unsubscribe(m, topic) =>
        PlainBytes(b, if topic.ProviderOfRules? then 0x08 else if topic.InfoRules? then 0x0A else 0x0C, m)
  {
    match command
    case DeleteRule(m, r) => RuleFrame(0x02, m, r);
    case ActivateRule(m, r) => RuleFrame(0x03, m, r);
    case DeactivateRule(m, r) => RuleFrame(0x04, m, r);
    case ActivateFirewall(m) => PlainFrame(0x05, m);
    case DeactivateFirewall(m) => PlainFrame(0x06, m);
    case Subscribe(m, topic) =>
      PlainFrame(if topic.ProviderOfRules? then 0x07 else if topic.InfoRules? then 0x09 else 0x0B, m);
    case Unsubscribe(m, topic) =>
      PlainFrame(if topic.ProviderOfRules? then 0x08 else if topic.InfoRules? then 0x0A else 0x0C, m);
  }

  /** Every command of fixed size reads back as what was written. */
  lemma DecodeEncode(command: Command)
    requires !command.AddRule? && !command.Unknown?
    ensures SelfSized(Encode(command)) && Decode(Encode(command)) == Some(command)
  {
    EncodeBytes(command);
    var b := Encode(command);
    assert b[..4][0] == b[0] && b[..4][1] == b[1] && b[..4][2] == b[2] && b[..4][3] == b[3];
    if |b| == 12 { RuleCommandBytes(b); } else { PlainCommandBytes(b); }
  }

  /** A terminated string is found wherever it lies. */
  lemma {:induction false} CStringFound(b: Bytes, k: nat, s: CString)
    requires k + |s| < |b| && b[k..k + |s|] == s && b[k + |s|] == 0
    ensures CStringAt(b, k) == Some(s)
    decreases |s|
  {
    if s != [] {
      assert b[k..k + |s|][0] == b[k];
      assert b[k + 1..k + 1 + |s[1..]|] == b[k..k + |s|][1..];
      CStringFound(b, k + 1, s[1..]);
      assert s == [s[0]] + s[1..];
    }
  }

  /** An add-rule message with its strings placed anywhere behind the fixed part carries the rule it describes. */
  lemma DecodeAddRule(b: Bytes, data: RT.RuleData, state: UInt8)
    requires |b| >= ADD_RULE_FIXED && U16(b, 2) == TYPE_ADD_RULE
    requires U32(b, 8) == data.id
    requires var at := U16(b, 12); var s := data.key.processName;
      at + |s| < |b| && b[at..at + |s|] == s && b[at + |s|] == 0
    requires var at := U16(b, 14); var s := data.key.filePath;
      at + |s| < |b| && b[at..at + |s|] == s && b[at + |s|] == 0
    requires U16(b, 16) == data.key.sockDomain && U16(b, 18) == data.key.sockType && U16(b, 20) == data.key.sockProtocol
    requires b[26] == data.key.direction && b[27] == data.key.allow && b[28] == state
    ensures Decode(b) == Some(AddRule(data, state))
  {
    CStringFound(b, U16(b, 12), data.key.processName);
    CStringFound(b, U16(b, 14), data.key.filePath);
  }

  /** An offset of 0, which the layout documents as "for all", makes the program read the message's own size as the
      string: the name is empty, and so matches everything, if and only if the low byte of the size is 0. */
  lemma OffsetZero(b: Bytes)
    requires |b| >= HEADER && U16(b, 2) == TYPE_ADD_RULE && Decode(b).Some?
    ensures Decode(b).value.AddRule? && |b| >= ADD_RULE_FIXED
    ensures U16(b, 12) == 0 ==> (Decode(b).value.data.key.processName == [] <==> U16(b, 0) % 256 == 0)
    ensures U16(b, 14) == 0 ==> (Decode(b).value.data.key.filePath == [] <==> U16(b, 0) % 256 == 0)
  {
    assert U16(b, 0) % 256 == b[0] as int;
  }

  function EncodeAll(commands: seq<Command>): Bytes
    requires forall i :: 0 <= i < |commands| ==> !commands[i].AddRule? && !commands[i].Unknown?
  {
    if commands == [] then [] else Encode(commands[0]) + EncodeAll(commands[1..])
  }

  lemma OneCommand(command: Command)
    requires !command.AddRule? && !command.Unknown?
    ensures CommandsIn(Encode(command)) == ([command], Complete)
  {
    var f := Encode(command);
    DecodeEncode(command);
    assert f[|f|..] == [];
    assert [command] + [] == [command];
  }

  /** A buffer of several commands holds exactly these commands, in order. */
  lemma {:induction false} CommandsOfEncoded(commands: seq<Command>)
    requires forall i :: 0 <= i < |commands| ==> !commands[i].AddRule? && !commands[i].Unknown?
    ensures CommandsIn(EncodeAll(commands)) == (commands, Complete)
  {
    if commands != [] {
      var f := Encode(commands[0]);
      OneCommand(commands[0]);
      CommandsOfEncoded(commands[1..]);
      CommandsSplit(f, EncodeAll(commands[1..]));
      assert commands == [commands[0]] + commands[1..];
    }
  }
}
