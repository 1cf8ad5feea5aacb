/** Message classes and type codes (Shared/messageType.h:8-79), and the messages the firewall sends. */
module Messages {

  /** A 32-bit word as the set of its bits that are 1; a union is bitwise or, an intersection bitwise and. */
  type BitIndex = i: int | 0 <= i < 32
  type Word = set<BitIndex>

  const ALL_BITS: Word := set i: BitIndex | 0 <= i < 32

  /** The message classes, each a single bit: 0x0100, 0x0200, 0x0400, 0x0800 and 0x2000. */
  const MESSAGE_CLASS_INFO_RULES: BitIndex := 8
  const MESSAGE_CLASS_INFO_SOCKETS: BitIndex := 9
  const MESSAGE_CLASS_PROVIDER_OF_RULES: BitIndex := 10
  const MESSAGE_CLASS_FIREWALL: BitIndex := 11
  const MESSAGE_CLASS_COMMON: BitIndex := 13

  /** The types 0x0101 to 0x0104. */
  const RULE_ADDED: Word := {MESSAGE_CLASS_INFO_RULES, 0}
  const RULE_DELETED: Word := {MESSAGE_CLASS_INFO_RULES, 1}
  const RULE_DEACTIVATED: Word := {MESSAGE_CLASS_INFO_RULES, 0, 1}
  const RULE_ACTIVATED: Word := {MESSAGE_CLASS_INFO_RULES, 2}

  /** The types 0x0801 to 0x0808. */
  const FIREWALL_ACTIVATED: Word := {MESSAGE_CLASS_FIREWALL, 0}
  const FIREWALL_DEACTIVATED: Word := {MESSAGE_CLASS_FIREWALL, 1}
  const SUBSCRIBED_AS_PROVIDER: Word := {MESSAGE_CLASS_FIREWALL, 0, 1}
  const UNSUBSCRIBED_AS_PROVIDER: Word := {MESSAGE_CLASS_FIREWALL, 2}
  const SUBSCRIBED_TO_INFO_RULES: Word := {MESSAGE_CLASS_FIREWALL, 0, 2}
  const UNSUBSCRIBED_FROM_INFO_RULES: Word := {MESSAGE_CLASS_FIREWALL, 1, 2}
  const SUBSCRIBED_TO_INFO_SOCKETS: Word := {MESSAGE_CLASS_FIREWALL, 0, 1, 2}
  const UNSUBSCRIBED_FROM_INFO_SOCKETS: Word := {MESSAGE_CLASS_FIREWALL, 3}

  /** The header of a raw message and, for the answers to commands, their fields. */
  datatype Raw = Raw(kind: Word, size: nat, unitId: int, clientMessageId: int, actionState: int, ruleId: int)

  /** The test `Client::Send` makes on the message type. */
  predicate Wanted(kind: Word, mask: Word) {
    kind * mask != {}
  }

  /** The classes `InitWithClient` stores. */
  const INITIAL_CLASSES: Word := {MESSAGE_CLASS_FIREWALL, MESSAGE_CLASS_COMMON}

  /** A message is let through exactly when its type and the mask have a bit in common. */
  lemma WantedExactly(kind: Word, mask: Word)
    ensures Wanted(kind, mask) <==> exists b :: b in kind && b in mask
  {
    if b :| b in kind && b in mask { assert b in kind * mask; }
    if Wanted(kind, mask) {
      var b :| b in kind * mask;
      assert b in kind && b in mask;
    }
  }

  // ---------------------------------------------------------------- the numbers behind the words

  /** The eight bits from the k-th on as a number. */
  function Octet(w: Word, k: nat): (r: int)
    requires k <= 24
    ensures 0 <= r < 0x100
  {
    (if k in w then 1 else 0) + (if k + 1 in w then 2 else 0) + (if k + 2 in w then 4 else 0)
    + (if k + 3 in w then 8 else 0) + (if k + 4 in w then 16 else 0) + (if k + 5 in w then 32 else 0)
    + (if k + 6 in w then 64 else 0) + (if k + 7 in w then 128 else 0)
  }

  /** The number a word stands for. */
  function Value(w: Word): int {
    Octet(w, 0) + 0x100 * Octet(w, 8) + 0x1_0000 * Octet(w, 16) + 0x100_0000 * Octet(w, 24)
  }

  lemma SameOctet(a: Word, b: Word, k: nat)
    requires k <= 24 && Octet(a, k) == Octet(b, k)
    ensures forall i :: k <= i < k + 8 ==> (i in a <==> i in b)
  {
    forall i | k <= i < k + 8
      ensures i in a <==> i in b
    {
      assert i == k || i == k + 1 || i == k + 2 || i == k + 3 || i == k + 4 || i == k + 5 || i == k + 6 || i == k + 7;
    }
  }

  lemma LowOctet(a: int, x: int, b: int, y: int)
    requires 0 <= a < 0x100 && 0 <= b < 0x100 && a + 0x100 * x == b + 0x100 * y
    ensures a == b && x == y
  {}

  /** Different words stand for different numbers. */
  lemma ValueDecides(a: Word, b: Word)
    requires Value(a) == Value(b)
    ensures a == b
  {
    var a3, b3 := Octet(a, 24), Octet(b, 24);
    var a2, b2 := Octet(a, 16) + 0x100 * a3, Octet(b, 16) + 0x100 * b3;
    var a1, b1 := Octet(a, 8) + 0x100 * a2, Octet(b, 8) + 0x100 * b2;
    LowOctet(Octet(a, 0), a1, Octet(b, 0), b1);
    LowOctet(Octet(a, 8), a2, Octet(b, 8), b2);
    LowOctet(Octet(a, 16), a3, Octet(b, 16), b3);
    SameOctet(a, b, 0);
    SameOctet(a, b, 8);
    SameOctet(a, b, 16);
    SameOctet(a, b, 24);
  }

  /** The classes as the numbers of Shared/messageType.h:10-15, and what a new client has. */
  lemma ClassCodes()
    ensures Value({MESSAGE_CLASS_INFO_RULES}) == 0x0100 && Value({MESSAGE_CLASS_INFO_SOCKETS}) == 0x0200
    ensures Value({MESSAGE_CLASS_PROVIDER_OF_RULES}) == 0x0400 && Value({MESSAGE_CLASS_FIREWALL}) == 0x0800
    ensures Value({MESSAGE_CLASS_COMMON}) == 0x2000 && Value(INITIAL_CLASSES) == 0x2800
  {}

  /** The types of the rule notices as the numbers of Shared/messageType.h:41-44. */
  lemma RuleTypeCodes()
    ensures Value(RULE_ADDED) == 0x0101 && Value(RULE_DELETED) == 0x0102
    ensures Value(RULE_DEACTIVATED) == 0x0103 && Value(RULE_ACTIVATED) == 0x0104
  {}

  /** The types of the firewall's notices and of the subscription answers as the numbers of
      Shared/messageType.h:50-58. */
  lemma FirewallTypeCodes()
    ensures Value(FIREWALL_ACTIVATED) == 0x0801 && Value(FIREWALL_DEACTIVATED) == 0x0802
    ensures Value(SUBSCRIBED_AS_PROVIDER) == 0x0803 && Value(UNSUBSCRIBED_AS_PROVIDER) == 0x0804
  {}

  lemma InfoRuleTypeCodes()
    ensures Value(SUBSCRIBED_TO_INFO_RULES) == 0x0805 && Value(UNSUBSCRIBED_FROM_INFO_RULES) == 0x0806
  {}

  lemma InfoSocketTypeCodes()
    ensures Value(SUBSCRIBED_TO_INFO_SOCKETS) == 0x0807 && Value(UNSUBSCRIBED_FROM_INFO_SOCKETS) == 0x0808
  {}

  /** A type with a single class: its only bit from bit 8 on. */
  predicate OneClass(kind: Word) {
    forall b, d :: b in kind && d in kind && b >= 8 && d >= 8 ==> b == d
  }
}
