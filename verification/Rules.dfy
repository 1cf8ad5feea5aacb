/** The rule table on the heap (Kext/rule.h, Kext/rule.cpp): `Rule` objects linked through `prev` and `next`
    below `root`.  Each method is one lock-protected section and is proved against `RuleTable`. */
module RulesHeap {
  import opened Common
  import opened References
  import opened IntrusiveList
  import opened RuleOrder
  import RT = RuleTable
  import opened RuleTable

  datatype RuleValue = RuleValue(data: RuleData, state: int)

  type Rule = Node<RuleValue>

  /** The lock-protected sections, with what the clock and the allocator answer. */
  datatype Request =
    | Add(data: RuleData, state: int, memory: bool, now: int)
    | Delete(id: UInt32, now: int)
    | Activate(id: UInt32, now: int)
    | Deactivate(id: UInt32, now: int)
    | Find(q: Query)
    | GiveBack(rule: Rule)
    | TearDown

  ghost predicate Described(data: map<Rule, RuleData>, state: map<Rule, int>)
    reads data.Keys`value
  {
    forall n :: n in data ==> n in state && n.value == RuleValue(data[n], state[n])
  }

  twostate predicate SameRule(n: Rule)
    reads n
  {
    && n.value == old(n.value) && n.references == old(n.references) && n.freed == old(n.freed)
    && n.prev == old(n.prev) && n.next == old(n.next)
  }

  /** What touches neither the table nor its rules leaves it as it is. */
  twostate lemma RulesKept(r: Rules)
    requires old(r.Coupled()) && r.root == old(r.root) && r.lastChangedTime == old(r.lastChangedTime) && r.S == old(r.S)
    requires forall n :: n in r.S.counts.refs ==> SameRule(n)
    requires forall n :: n in r.S.data ==> SameRule(n)
    ensures r.Coupled()
  {
    assert forall i :: 0 <= i < |r.S.chain| ==> r.S.chain[i] in r.S.counts.refs && SameRule(r.S.chain[i]);
  }

  class Rules {
    var root: Node?<RuleValue>
    var lastChangedTime: int
    ghost var S: Table<Rule>

    ghost predicate Coupled()
      reads this, S.counts.refs.Keys, S.data.Keys
    {
      && (forall n :: n in S.chain ==> n in S.counts.refs && n in S.data && n in S.state)
      && Described(S.data, S.state)
      && Linked(S.chain, S.cut, root)
      && Counted(S.counts)
      && S.lastChanged == lastChangedTime
    }

    ghost function Repr(): set<object>
      reads this
    {
      {this} + S.counts.refs.Keys + S.data.Keys
    }

    constructor ()
      ensures Coupled() && S == RT.Empty() && fresh(Repr())
    {
      root := null;
      lastChangedTime := 0;
      S := RT.Empty();
    }

    method Retain(rule: Rule)
      requires Coupled() && rule in S.counts.refs && rule !in S.counts.freed
      modifies this`S, rule`references
      ensures Coupled() && S == old(S).(counts := old(S).counts.Retain(rule))
    {
      var before := rule.Retain();
      S := S.(counts := S.counts.Retain(rule));
    }

    method Release(rule: Rule)
      requires Coupled() && rule in S.counts.refs && rule !in S.counts.freed
      modifies this`S, rule`references, rule`freed
      ensures Coupled() && S == old(S).(counts := old(S).counts.Release(rule))
    {
      var left := rule.Release();
      S := S.(counts := S.counts.Release(rule));
    }

    /** The caller receives its own reference. */
    method Lend(rule: Rule)
      requires Coupled() && rule in S.counts.refs && rule !in S.counts.freed
      modifies this`S, rule`references
      ensures Coupled() && S == RT.Lend(old(S), rule)
    {
      Retain(rule);
      S := S.(held := S.held + multiset{rule});
    }

    /** `Rule::Init` stores the count 1. */
    method Create(data: RuleData, state: int) returns (workRule: Rule)
      requires Coupled()
      modifies this`S
      ensures Coupled()
      ensures fresh(workRule) && workRule !in old(S).counts.refs && workRule !in old(S).data
      ensures workRule.prev == null && workRule.next == null
      ensures S == RT.Create(old(S), workRule, data, state)
    {
      workRule := new Node(RuleValue(data, state), 1);
      assert workRule !in S.counts.refs && workRule !in S.data;
      S := RT.Create(S, workRule, data, state);
    }

    /** The loop of `AddRule`: the first rule that is not greater than the key, and the one before it. */
    method Scan(key: Key) returns (prev: Node?<RuleValue>, current: Node?<RuleValue>)
      requires Coupled()
      ensures var i := Place(S.chain, S.data, key);
        && current == (if i < |S.chain| then S.chain[i] else null)
        && prev == (if i > 0 then S.chain[i - 1] else null)
    {
      prev, current := null, root;
      ghost var i := 0;
      while current != null && Compare(key, current.value.data.key) < 0
        invariant i <= |S.chain|
        invariant current == if i < |S.chain| then S.chain[i] else null
        invariant prev == if i > 0 then S.chain[i - 1] else null
        invariant Place(S.chain, S.data, key) == i + Place(S.chain[i..], S.data, key)
        decreases |S.chain| - i
      {
        assert S.chain[i..][0] == current && S.chain[i..][1..] == S.chain[i + 1..];
        prev := current;
        current := current.next;
        i := i + 1;
      }
    }

    /** The abstract table follows the links. */
    ghost method Follow(t: Table<Rule>)
      requires t.data == S.data && t.state == S.state && t.counts == S.counts && t.lastChanged == lastChangedTime
      requires Described(S.data, S.state) && Counted(S.counts) && Linked(t.chain, t.cut, root)
      requires forall n :: n in t.chain ==> n in S.counts.refs && n in S.data && n in S.state
      modifies this`S
      ensures Coupled() && S == t
    {
      S := t;
    }

    /** The new rule becomes the last.  The corrected form also links it back and takes the time. */
    method LinkLast(form: Form, prev: Node?<RuleValue>, workRule: Rule, now: int)
      requires Coupled() && workRule in S.counts.refs && workRule in S.data && workRule in S.state
      requires workRule !in S.chain && workRule.prev == null && workRule.next == null && workRule !in S.cut
      requires prev == if S.chain == [] then null else S.chain[|S.chain| - 1]
      modifies this, workRule`prev, S.chain`next
      ensures Coupled() && S == RT.LinkLast(form, old(S), workRule, now)
    {
      root := Append(root, prev, workRule, form == Corrected, S.chain, S.cut);
      if form == Corrected {
        lastChangedTime := now;
      }
      Follow(RT.LinkLast(form, S, workRule, now));
    }

    method LinkBefore(current: Rule, workRule: Rule, now: int, ghost i: nat)
      requires Coupled() && workRule in S.counts.refs && workRule in S.data && workRule in S.state
      requires workRule !in S.chain && workRule !in S.cut
      requires i < |S.chain| && current == S.chain[i]
      modifies this, workRule`prev, workRule`next, S.chain`prev, S.chain`next
      ensures Coupled() && S == RT.LinkBefore(old(S), workRule, i, now)
    {
      root := InsertBefore(root, workRule, current, S.chain, S.cut, i);
      lastChangedTime := now;
      InsertedAt(S.chain, S.cut, i, workRule);
      Follow(RT.LinkBefore(S, workRule, i, now));
    }

    /** `AddRule`; `memory` tells whether the rule object could be made from the message. */
    method AddRule(form: Form, data: RuleData, state: int, memory: bool, now: int)
      returns (result: int, rule: Node?<RuleValue>, ghost node: Option<Rule>)
      requires Coupled() && Safe(S)
      requires forall n :: n in S.cut ==> n in S.counts.refs
      modifies this, S.counts.refs.Keys
      ensures Coupled()
      ensures node.Some? <==> memory
      ensures node.Some? ==> fresh(node.value) && node.value !in old(S).counts.refs
      ensures (S, result, AsOption(rule)) == RT.AddRule(form, old(S), node, data, state, now)
    {
      result, rule, node := -1, null, None;
      if memory {
        var workRule := Create(data, state);
        node := Some(workRule);
        result, rule := Link(form, workRule, now, RT.Link(form, S, workRule, now));
      }
    }

    /** The locked part of `AddRule`. */
    method Link(form: Form, workRule: Rule, now: int, ghost goal: (Table<Rule>, int, Rule))
      returns (result: int, rule: Rule)
      requires Coupled() && Safe(S) && workRule in S.counts.refs && workRule in S.data && workRule in S.state
      requires workRule !in S.chain && workRule !in S.cut && workRule.prev == null && workRule.next == null
      requires workRule !in S.counts.freed && goal == RT.Link(form, S, workRule, now)
      modifies this, S.counts.refs.Keys, workRule
      ensures Coupled() && (S, result, rule) == goal
    {
      var prev, current := Scan(workRule.value.data.key);
      ghost var i := Place(S.chain, S.data, workRule.value.data.key);
      assert workRule.value.data == S.data[workRule];
      assert current != null ==> current.value.data == S.data[current];
      if current == null {
        AddLast(form, prev, workRule, now);
        result, rule := 0, workRule;
      } else if Compare(workRule.value.data.key, current.value.data.key) == 0 {
        UseExisting(workRule, current);
        result, rule := 1, current;
      } else {
        AddBefore(current, workRule, now, i);
        result, rule := 0, workRule;
      }
    }

    /** The new rule enters the chain, and the caller receives a reference to it. */
    method AddLast(form: Form, prev: Node?<RuleValue>, workRule: Rule, now: int)
      requires Coupled() && workRule in S.counts.refs && workRule in S.data && workRule in S.state
      requires workRule !in S.chain && workRule.prev == null && workRule.next == null && workRule !in S.cut
      requires prev == if S.chain == [] then null else S.chain[|S.chain| - 1]
      requires workRule !in S.counts.freed
      modifies this, workRule`prev, workRule`references, S.chain`next
      ensures Coupled() && S == RT.Lend(RT.LinkLast(form, old(S), workRule, now), workRule)
    {
      LinkLast(form, prev, workRule, now);
      Lend(workRule);
    }

    method AddBefore(current: Rule, workRule: Rule, now: int, ghost i: nat)
      requires Coupled() && workRule in S.counts.refs && workRule in S.data && workRule in S.state
      requires workRule !in S.chain && workRule !in S.cut && workRule !in S.counts.freed
      requires i < |S.chain| && current == S.chain[i]
      modifies this, workRule`prev, workRule`next, workRule`references, S.chain`prev, S.chain`next
      ensures Coupled() && S == RT.Lend(RT.LinkBefore(old(S), workRule, i, now), workRule)
    {
      LinkBefore(current, workRule, now, i);
      Lend(workRule);
    }

    /** The new rule is given up in favour of an equal one. */
    method UseExisting(workRule: Rule, current: Rule)
      requires Coupled() && current != workRule
      requires workRule in S.counts.refs && workRule !in S.counts.freed
      requires current in S.counts.refs && current !in S.counts.freed
      modifies this`S, workRule`references, workRule`freed, current`references
      ensures Coupled() && S == RT.Lend(old(S).(counts := old(S).counts.Release(workRule)), current)
    {
      Release(workRule);
      Lend(current);
    }

    /** The scan of the commands that name a rule by id. */
    method WithId(id: UInt32) returns (workRule: Node?<RuleValue>)
      requires Coupled()
      ensures var i := FirstWithId(S.chain, S.data, id); workRule == if i < |S.chain| then S.chain[i] else null
    {
      workRule := root;
      ghost var i := 0;
      while workRule != null && workRule.value.data.id != id
        invariant i <= |S.chain|
        invariant workRule == if i < |S.chain| then S.chain[i] else null
        invariant FirstWithId(S.chain, S.data, id) == i + FirstWithId(S.chain[i..], S.data, id)
        decreases |S.chain| - i
      {
        assert S.chain[i..][1..] == S.chain[i + 1..];
        workRule := workRule.next;
        i := i + 1;
      }
    }

    /** `RemoveFromChain` also clears the links of the removed rule. */
    method RemoveFromChain(rule: Rule, ghost i: nat)
      requires Coupled() && i < |S.chain| && rule == S.chain[i]
      modifies this`S, this`root, S.chain`prev, S.chain`next
      ensures Coupled() && S == TakeOut(old(S), i)
    {
      root := UnlinkAndClear(root, rule, S.chain, S.cut, i);
      assert forall n :: n in Unlinked(S.chain, S.cut, i) ==> n in S.chain;
      Follow(TakeOut(S, i));
    }

    /** Who owns the rules that left the chain is not on the heap. */
    ghost method Disown(orphans: set<Rule>)
      requires Coupled()
      modifies this`S
      ensures Coupled() && S == old(S).(orphans := orphans)
    {
      S := S.(orphans := orphans);
    }

    /** A change of state that is also a change of the table. */
    method Mark(rule: Rule, state: int, now: int)
      requires Coupled() && rule in S.chain
      modifies this`S, this`lastChangedTime, rule`value
      ensures Coupled() && S == old(S).(state := old(S).state[rule := state], lastChanged := now)
    {
      rule.value := rule.value.(state := state);
      lastChangedTime := now;
      S := S.(state := S.state[rule := state], lastChanged := now);
    }

    method DeleteRule(form: Form, id: UInt32, now: int) returns (result: int)
      requires Coupled() && Safe(S)
      modifies this, S.counts.refs.Keys
      ensures Coupled() && (S, result) == RT.DeleteRule(form, old(S), id, now)
    {
      result := if form == AsWritten then -1 else 1;
      var workRule := WithId(id);
      ghost var i := FirstWithId(S.chain, S.data, id);
      if workRule != null {
        Mark(workRule, RULE_STATE_DELETED, now);
        RemoveFromChain(workRule, i);
        if form == Corrected {
          Release(workRule);
          Disown(S.orphans - {workRule});
        }
        result := 0;
      }
    }

    /** The common shape of the two activation commands. */
    method Switch(id: UInt32, from: int, to: int, now: int) returns (result: int)
      requires Coupled()
      modifies this, S.counts.refs.Keys
      ensures Coupled() && (S, result) == RT.Switch(old(S), id, from, to, now)
    {
      result := -1;
      var workRule := WithId(id);
      if workRule != null {
        if workRule.value.state == from {
          Mark(workRule, to, now);
          result := 0;
        } else {
          result := 1;
        }
      }
    }

    method ActivateRule(id: UInt32, now: int) returns (result: int)
      requires Coupled()
      modifies this, S.counts.refs.Keys
      ensures Coupled() && (S, result) == RT.ActivateRule(old(S), id, now)
    {
      result := Switch(id, RULE_STATE_INACTIVE, RULE_STATE_ACTIVE, now);
    }

    method DeactivateRule(form: Form, id: UInt32, now: int) returns (result: int)
      requires Coupled()
      modifies this, S.counts.refs.Keys
      ensures Coupled() && (S, result) == RT.DeactivateRule(form, old(S), id, now)
    {
      if form == AsWritten {
        result := Switch(id, RULE_STATE_INACTIVE, RULE_STATE_ACTIVE, now);
      } else {
        result := Switch(id, RULE_STATE_ACTIVE, RULE_STATE_INACTIVE, now);
      }
    }

    /** The scan of `FindRule`. */
    method FirstMatching(q: Query) returns (current: Node?<RuleValue>)
      requires Coupled()
      ensures var i := FirstMatch(S.chain, S.data, q); current == if i < |S.chain| then S.chain[i] else null
    {
      current := root;
      ghost var i := 0;
      while current != null && !Matches(current.value.data.key, q)
        invariant i <= |S.chain|
        invariant current == if i < |S.chain| then S.chain[i] else null
        invariant FirstMatch(S.chain, S.data, q) == i + FirstMatch(S.chain[i..], S.data, q)
        decreases |S.chain| - i
      {
        assert S.chain[i..][1..] == S.chain[i + 1..];
        current := current.next;
        i := i + 1;
      }
    }

    method FindRule(q: Query) returns (rule: Node?<RuleValue>)
      requires Coupled() && Safe(S)
      modifies this`S, S.counts.refs.Keys
      ensures Coupled() && (S, AsOption(rule)) == RT.FindRule(old(S), q)
    {
      rule := FirstMatching(q);
      if rule != null {
        Lend(rule);
      }
    }

    method Drop(rule: Rule)
      requires Coupled() && rule in S.counts.refs && rule !in S.counts.freed
      modifies this`S, rule`references, rule`freed
      ensures Coupled() && S == RT.Drop(old(S), rule)
    {
      Release(rule);
      S := S.(held := S.held - multiset{rule});
    }

    method DropTo(rule: Rule, ghost after: Table<Rule>)
      requires Coupled() && rule in S.counts.refs && rule !in S.counts.freed && after == RT.Drop(S, rule)
      modifies this`S, rule`references, rule`freed
      ensures Coupled() && S == after
    {
      Drop(rule);
    }

    /** The loop of `Free`: `RemoveFromChain(root)->Release()` until no rule is left. */
    method FreeAll()
      requires Coupled() && Safe(S)
      modifies this, S.counts.refs.Keys
      ensures Coupled() && root == null
      ensures S == RT.FreeAll(old(S))
    {
      ghost var was := S;
      while root != null
        invariant S.counts.refs.Keys == was.counts.refs.Keys
        invariant Coupled() && Safe(S) && RT.FreeAll(S) == RT.FreeAll(was)
        decreases |S.chain|
      {
        DropFirst();
      }
      S := S.(cut := {});
    }

    /** What is left to take out leads to the same end. */
    method DropFirst()
      requires Coupled() && Safe(S) && root != null
      modifies this, S.counts.refs.Keys
      ensures Coupled() && Safe(S) && RT.FreeAll(S) == RT.FreeAll(old(S))
      ensures |S.chain| < |old(S).chain| && S.counts.refs.Keys == old(S).counts.refs.Keys
    {
      FirstFreed(S);
      DropHead(S.(chain := S.chain[1..], counts := S.counts.Release(root)));
    }

    /** `goal` is the table without its first rule, but for the repaired back link. */
    method DropHead(ghost goal: Table<Rule>)
      requires Coupled() && root != null && root !in S.counts.freed
      requires goal == S.(chain := S.chain[1..], counts := S.counts.Release(root))
      modifies this, S.counts.refs.Keys
      ensures Coupled() && S == goal.(cut := S.cut)
    {
      var first := root;
      ghost var was := S;
      assert Unlinked(was.chain, was.cut, 0) == was.chain[1..];
      RemoveFromChain(first, 0);
      Disown(was.orphans);
      Release(first);
    }

    /** What the caller of an addition relies on to give the rule back. */
    method AddKeeping(form: Form, data: RuleData, state: int, memory: bool, now: int)
      returns (result: int, rule: Node?<RuleValue>, ghost node: Option<Rule>, ghost after: Table<Rule>)
      requires Coupled() && Inv(S)
      modifies this, S.counts.refs.Keys
      ensures Coupled() && Inv(after) && Known(old(S)) && (node.Some? <==> memory)
      ensures node.Some? ==> fresh(node.value) && node.value !in old(S).counts.refs
      ensures (after, result) == RT.AddReleased(form, old(S), node, data, state, now) && after.held == old(S).held
      ensures after.counts.refs.Keys == old(S).counts.refs.Keys + if node.Some? then {node.value} else {}
      ensures rule == null ==> S == after
      ensures rule != null ==> rule in S.counts.refs && rule !in S.counts.freed && RT.Drop(S, rule) == after
      ensures rule != null ==> rule in old(S).counts.refs || fresh(rule)
    {
      InvSafe(S);
      ghost var was := S;
      result, rule, node := AddRule(form, data, state, memory, now);
      after := RT.AddReleased(form, was, node, data, state, now).0;
      if memory {
        Lent(form, was, node.value, data, state, now);
      }
    }

    /** The addition of `KcSend`, which gives the rule back. */
    method AddAndRelease(form: Form, data: RuleData, state: int, memory: bool, now: int)
      returns (result: int, ghost node: Option<Rule>, ghost after: Table<Rule>)
      requires Coupled() && Inv(S)
      modifies this, S.counts.refs.Keys
      ensures Coupled() && S == after && Inv(S) && Known(old(S)) && (node.Some? <==> memory)
      ensures node.Some? ==> fresh(node.value) && node.value !in old(S).counts.refs
      ensures (after, result) == RT.AddReleased(form, old(S), node, data, state, now) && S.held == old(S).held
      ensures S.counts.refs.Keys == old(S).counts.refs.Keys + if node.Some? then {node.value} else {}
    {
      var rule;
      result, rule, node, after := AddKeeping(form, data, state, memory, now);
      if rule != null {
        DropTo(rule, after);
      }
    }

    method DeleteKeeping(form: Form, id: UInt32, now: int) returns (result: int)
      requires Coupled() && Inv(S)
      modifies this, S.counts.refs.Keys
      ensures Coupled() && Inv(S) && Known(old(S)) && (S, result) == RT.DeleteRule(form, old(S), id, now)
      ensures S.counts.refs.Keys == old(S).counts.refs.Keys
    {
      InvSafe(S);
      DeleteObjects(form, S, id, now);
      DeleteInv(form, S, id, now);
      result := DeleteRule(form, id, now);
    }

    method SwitchKeeping(form: Form, activate: bool, id: UInt32, now: int) returns (result: int)
      requires Coupled() && Inv(S)
      modifies this, S.counts.refs.Keys
      ensures Coupled() && Inv(S) && Known(old(S))
      ensures (S, result) == if activate then RT.ActivateRule(old(S), id, now)
                             else RT.DeactivateRule(form, old(S), id, now)
      ensures S.counts.refs.Keys == old(S).counts.refs.Keys
    {
      InvSafe(S);
      SwitchObjects(form, S, id, now);
      SwitchInv(S, id, RULE_STATE_INACTIVE, RULE_STATE_ACTIVE, now);
      SwitchInv(S, id, RULE_STATE_ACTIVE, RULE_STATE_INACTIVE, now);
      if activate {
        result := ActivateRule(id, now);
      } else {
        result := DeactivateRule(form, id, now);
      }
    }

    /** Every section is a step of the machine: it goes from a reachable state to a reachable state, and the
        links, fields, counts and deletions on the heap follow it. */
    method Perform(form: Form, request: Request) returns (ghost step: Step<Rule>)
      requires Coupled() && Inv(S)
      requires request.GiveBack? ==> request.rule in S.held
      modifies this, S.counts.refs.Keys
      ensures Enabled(old(S), step) && S == Apply(form, old(S), step)
      ensures Coupled() && Inv(S)
    {
      InvSafe(S);
      ghost var was := S;
      match request {
        case Add(data, state, memory, now) =>
          ghost var node;
          var result, rule;
          result, rule, node := AddRule(form, data, state, memory, now);
          step := AddStep(node, data, state, now);
        case Delete(id, now) =>
          var result := DeleteRule(form, id, now);
          step := DeleteStep(id, now);
        case Activate(id, now) =>
          var result := ActivateRule(id, now);
          step := ActivateStep(id, now);
        case Deactivate(id, now) =>
          var result := DeactivateRule(form, id, now);
          step := DeactivateStep(id, now);
        case Find(q) =>
          var rule := FindRule(q);
          step := FindStep(q);
        case GiveBack(rule) =>
          Drop(rule);
          step := DropStep(rule);
        case TearDown =>
          FreeAll();
          step := FreeStep;
      }
      StepInv(form, was, step);
    }
  }

  /** The rule an addition answers is lent to the caller and can be given back. */
  lemma Lent(form: Form, t: Table<Rule>, node: Rule, d: RuleData, state: int, now: int)
    requires Inv(t) && node !in t.counts.refs
    ensures Known(t)
    ensures var (u, _, rule) := RT.AddRule(form, t, Some(node), d, state, now);
      && var after := RT.AddReleased(form, t, Some(node), d, state, now).0;
      && rule.Some? && rule.value in u.counts.refs && rule.value !in u.counts.freed
      && (rule.value in t.counts.refs || rule.value == node)
      && after == RT.Drop(u, rule.value) && Inv(after) && after.held == t.held
      && after.counts.refs.Keys == t.counts.refs.Keys + {node}
  {
    AddInv(form, t, node, d, state, now);
    AddObjects(form, t, node, d, state, now);
    AddLends(form, t, node, d, state, now);
    var (u, _, rule) := RT.AddRule(form, t, Some(node), d, state, now);
    GivenBack(t.held, u, rule.value);
  }

  /** Taking the first rule out is the first step of the teardown. */
  lemma FirstFreed(t: Table<Rule>)
    requires Safe(t) && t.chain != [] && Distinct(t.chain)
    ensures forall u: Table<Rule> ::
      u == t.(chain := t.chain[1..], counts := t.counts.Release(t.chain[0]), cut := u.cut) ==>
        Safe(u) && RT.FreeAll(u) == RT.FreeAll(t) && u.counts.refs.Keys == t.counts.refs.Keys
  {}
}
