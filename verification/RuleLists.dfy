/** The rules as their users see them (Kext/rule.cpp:102-306, Kext/rule.h:15-19): a list of rules with their states,
    without links, objects, counts or clocks; what every operation and every command does to that list, and when a
    change is reported. */
module RuleLists {
  import opened Common
  import opened RuleOrder
  import opened IntrusiveList
  import RT = RuleTable
  import RuleLaws
  import Protocol
  import ProtocolLaws

  datatype Entry = Entry(data: RT.RuleData, state: int)

  function Entries<R>(chain: seq<R>, data: map<R, RT.RuleData>, state: map<R, int>): (l: seq<Entry>)
    requires forall r :: r in chain ==> r in data && r in state
    ensures |l| == |chain|
    ensures forall k :: 0 <= k < |l| ==> l[k] == Entry(data[chain[k]], state[chain[k]])
  {
    seq(|chain|, k requires 0 <= k < |chain| => Entry(data[chain[k]], state[chain[k]]))
  }

  /** The rules from the first to the last. */
  function Listing<R>(t: RT.Table<R>): (l: seq<Entry>)
    requires RT.Known(t)
  {
    Entries(t.chain, t.data, t.state)
  }

  // ---------------------------------------------------------------- effects on the list

  /** The first rule with the id is the k-th, or there is none and k is the length. */
  predicate FirstIs(a: seq<Entry>, id: UInt32, k: nat) {
    k <= |a| && (forall j :: 0 <= j < k ==> a[j].data.id != id) && (k < |a| ==> a[k].data.id == id)
  }

  /** The first rule with the id has left, and nothing else has changed. */
  ghost predicate Deleted(a: seq<Entry>, b: seq<Entry>, id: UInt32) {
    exists k: nat :: FirstIs(a, id, k) && b == if k < |a| then a[..k] + a[k + 1..] else a
  }

  /** The first rule with the id has gone from one state to another, if it was in the one. */
  ghost predicate Switched(a: seq<Entry>, b: seq<Entry>, id: UInt32, from: int, to: int) {
    exists k: nat :: FirstIs(a, id, k)
      && b == if k < |a| && a[k].state == from then a[k := Entry(a[k].data, to)] else a
  }

  /** The greater rules, then those that are smaller. */
  predicate Between(a: seq<Entry>, key: Key, k: nat) {
    && k <= |a|
    && (forall j :: 0 <= j < k ==> Compare(a[j].data.key, key) > 0)
    && (forall j :: k <= j < |a| ==> Compare(key, a[j].data.key) > 0)
  }

  predicate HasKey(a: seq<Entry>, key: Key) {
    exists k :: 0 <= k < |a| && a[k].data.key == key
  }

  /** The rule has entered in its place, unless there was one with the same fields. */
  ghost predicate Added(a: seq<Entry>, b: seq<Entry>, e: Entry) {
    if HasKey(a, e.data.key) then b == a
    else exists k: nat :: Between(a, e.data.key, k) && b == a[..k] + [e] + a[k..]
  }

  // ---------------------------------------------------------------- the operations

  lemma EntriesRemove<R>(chain: seq<R>, data: map<R, RT.RuleData>, state: map<R, int>, k: nat, other: map<R, int>)
    requires k < |chain| && Distinct(chain) && forall r :: r in chain ==> r in data && r in state
    requires forall r :: r in chain && r != chain[k] ==> r in other && other[r] == state[r]
    ensures forall r :: r in RemoveAt(chain, k) ==> r in data && r in other
    ensures var l := Entries(chain, data, state);
      Entries(RemoveAt(chain, k), data, other) == l[..k] + l[k + 1..]
  {
    var s := RemoveAt(chain, k);
    assert forall j :: 0 <= j < |s| ==> s[j] == chain[if j < k then j else j + 1] != chain[k];
  }

  lemma EntriesInsert<R>(chain: seq<R>, data: map<R, RT.RuleData>, state: map<R, int>, k: nat, node: R, e: Entry)
    requires k <= |chain| && node !in chain && forall r :: r in chain ==> r in data && r in state
    ensures forall r :: r in chain[..k] + [node] + chain[k..] ==>
      r in data[node := e.data] && r in state[node := e.state]
    ensures var l := Entries(chain, data, state);
      Entries(chain[..k] + [node] + chain[k..], data[node := e.data], state[node := e.state]) == l[..k] + [e] + l[k..]
  {}

  lemma EntriesSame<R>(chain: seq<R>, data: map<R, RT.RuleData>, state: map<R, int>, node: R, e: Entry)
    requires node !in chain && forall r :: r in chain ==> r in data && r in state
    ensures Entries(chain, data[node := e.data], state[node := e.state]) == Entries(chain, data, state)
  {}

  lemma EntriesUpdate<R>(chain: seq<R>, data: map<R, RT.RuleData>, state: map<R, int>, k: nat, to: int)
    requires k < |chain| && Distinct(chain) && forall r :: r in chain ==> r in data && r in state
    ensures var l := Entries(chain, data, state);
      Entries(chain, data, state[chain[k] := to]) == l[k := Entry(l[k].data, to)]
  {}

  lemma KeyListed<R>(t: RT.Table<R>, key: Key)
    requires RT.Known(t)
    ensures HasKey(Listing(t), key) <==> RT.HasKey(t.chain, t.data, key)
  {
    var l := Listing(t);
    if k :| 0 <= k < |l| && l[k].data.key == key { assert t.chain[k] in t.chain; }
    if RT.HasKey(t.chain, t.data, key) {
      var r :| r in t.chain && t.data[r].key == key;
      var k :| 0 <= k < |t.chain| && t.chain[k] == r;
      assert l[k].data.key == key;
    }
  }

  /** What `DeleteRule` does to the parts of the table the list is made of. */
  lemma DeleteParts<R>(form: Form, t: RT.Table<R>, id: UInt32, now: int)
    requires RT.Known(t) && RT.Descending(t.chain, t.data)
    ensures var u, k := RT.DeleteRule(form, t, id, now).0, RT.FirstWithId(t.chain, t.data, id);
      if k == |t.chain| then u == t
      else
        && RT.Known(u) && u.data == t.data && u.state == t.state[t.chain[k] := RT.RULE_STATE_DELETED]
        && (t.chain[k] !in t.cut ==> u.chain == RemoveAt(t.chain, k))
  {
    RT.DescendingDistinct(t.chain, t.data);
    var k := RT.FirstWithId(t.chain, t.data, id);
    if k < |t.chain| { RT.UnlinkedMembers(t.chain, t.cut, k); }
  }

  lemma DeletedAt(a: seq<Entry>, b: seq<Entry>, id: UInt32, k: nat)
    requires FirstIs(a, id, k) && b == if k < |a| then a[..k] + a[k + 1..] else a
    ensures Deleted(a, b, id)
  {}

  lemma FirstListed<R>(t: RT.Table<R>, id: UInt32)
    requires RT.Known(t)
    ensures FirstIs(Listing(t), id, RT.FirstWithId(t.chain, t.data, id))
  {}

  /** A deletion on a rule with its back link, in either form. */
  lemma DeleteLists<R>(form: Form, t: RT.Table<R>, id: UInt32, now: int)
    requires RT.Inv(t) && RuleLaws.BackLinkPresent(t, RT.DeleteStep(id, now))
    ensures var u := RT.DeleteRule(form, t, id, now).0;
      RT.Known(u) && Deleted(Listing(t), Listing(u), id)
  {
    RT.DescendingDistinct(t.chain, t.data);
    DeleteParts(form, t, id, now);
    FirstListed(t, id);
    var k := RT.FirstWithId(t.chain, t.data, id);
    if k < |t.chain| {
      EntriesRemove(t.chain, t.data, t.state, k, t.state[t.chain[k] := RT.RULE_STATE_DELETED]);
    }
    DeletedAt(Listing(t), Listing(RT.DeleteRule(form, t, id, now).0), id, k);
  }

  lemma SwitchLists<R>(t: RT.Table<R>, id: UInt32, from: int, to: int, now: int)
    requires RT.Inv(t)
    ensures var u := RT.Switch(t, id, from, to, now).0;
      RT.Known(u) && Switched(Listing(t), Listing(u), id, from, to)
  {
    RT.DescendingDistinct(t.chain, t.data);
    var k := RT.FirstWithId(t.chain, t.data, id);
    if k < |t.chain| { EntriesUpdate(t.chain, t.data, t.state, k, to); }
    assert FirstIs(Listing(t), id, k);
  }

  /** A rule that goes to its place among others, in lists. */
  lemma AddedAt(a: seq<Entry>, b: seq<Entry>, e: Entry, k: nat)
    requires Between(a, e.data.key, k) && b == a[..k] + [e] + a[k..] && !HasKey(a, e.data.key)
    ensures Added(a, b, e)
  {}

  /** A key nobody has is not equal to the one the scan stops at. */
  lemma PlaceSmaller<R>(chain: seq<R>, data: map<R, RT.RuleData>, key: Key)
    requires RT.Descending(chain, data) && !RT.HasKey(chain, data, key)
    ensures var k := RT.Place(chain, data, key);
      && (forall j :: 0 <= j < k ==> Compare(data[chain[j]].key, key) > 0)
      && (forall j :: k <= j < |chain| ==> Compare(key, data[chain[j]].key) > 0)
  {
    RT.PlaceSplits(chain, data, key);
  }

  /** Where the scan stops, in lists. */
  lemma PlaceLists<R>(chain: seq<R>, data: map<R, RT.RuleData>, state: map<R, int>, key: Key)
    requires RT.Descending(chain, data) && !RT.HasKey(chain, data, key) && forall r :: r in chain ==> r in state
    ensures Between(Entries(chain, data, state), key, RT.Place(chain, data, key))
  {
    PlaceSmaller(chain, data, key);
  }

  /** What `AddRule` does to the parts of the table the list is made of. */
  lemma AddParts<R>(form: Form, t: RT.Table<R>, node: R, d: RT.RuleData, state: int, now: int)
    requires RT.Known(t) && RT.Descending(t.chain, t.data) && node !in t.counts.refs
    requires var k := RT.Place(t.chain, t.data, d.key); k < |t.chain| ==>
      Compare(d.key, t.data[t.chain[k]].key) == 0 || t.chain[k] !in t.cut
    ensures var u, k := RT.AddRule(form, t, Some(node), d, state, now).0, RT.Place(t.chain, t.data, d.key);
      && u.data == t.data[node := d] && u.state == t.state[node := state]
      && u.chain == if RT.HasKey(t.chain, t.data, d.key) then t.chain else t.chain[..k] + [node] + t.chain[k..]
  {
    RuleLaws.AddRuleChain(form, t, node, d, state, now);
    RT.PlaceSplits(t.chain, t.data, d.key);
  }

  /** An addition in front of a rule with its back link or at the end, in either form. */
  lemma AddLists<R>(form: Form, t: RT.Table<R>, node: R, d: RT.RuleData, state: int, now: int)
    requires RT.Inv(t) && node !in t.counts.refs
    requires RuleLaws.BackLinkPresent(t, RT.AddStep(Some(node), d, state, now))
    ensures var u := RT.AddRule(form, t, Some(node), d, state, now).0;
      RT.Known(u) && Added(Listing(t), Listing(u), Entry(d, state))
  {
    var u := RT.AddRule(form, t, Some(node), d, state, now).0;
    RT.AddInv(form, t, node, d, state, now);
    RT.InvKnown(u);
    AddParts(form, t, node, d, state, now);
    KeyListed(t, d.key);
    if HasKey(Listing(t), d.key) {
      EntriesSame(t.chain, t.data, t.state, node, Entry(d, state));
    } else {
      var k := RT.Place(t.chain, t.data, d.key);
      EntriesInsert(t.chain, t.data, t.state, k, node, Entry(d, state));
      PlaceLists(t.chain, t.data, t.state, d.key);
      AddedAt(Listing(t), Listing(u), Entry(d, state), k);
    }
  }

  /** What a step does to the list, in the numbers of the states: 1 is active, 2 inactive. */
  ghost predicate Effect<R>(form: Form, a: seq<Entry>, b: seq<Entry>, s: RT.Step<R>) {
    match s
    case AddStep(node, d, initial, _) => if node.None? then b == a else Added(a, b, Entry(d, initial))
    case DeleteStep(id, _) => Deleted(a, b, id)
    case ActivateStep(id, _) => Switched(a, b, id, 2, 1)
    case DeactivateStep(id, _) => if form == AsWritten then Switched(a, b, id, 2, 1) else Switched(a, b, id, 1, 2)
    case FindStep(_) => b == a
    case DropStep(_) => b == a
    case FreeStep => b == []
  }

  /** Every step does to the list what it should, in either form, whenever the rule it works on has its back link. */
  lemma StepLists<R>(form: Form, t: RT.Table<R>, s: RT.Step<R>)
    requires RT.Inv(t) && RT.Enabled(t, s) && RuleLaws.BackLinkPresent(t, s)
    ensures RT.Known(RT.Apply(form, t, s)) && Effect(form, Listing(t), Listing(RT.Apply(form, t, s)), s)
  {
    match s
    case AddStep(node, d, initial, now) => if node.Some? { AddLists(form, t, node.value, d, initial, now); }
    case DeleteStep(id, now) => DeleteLists(form, t, id, now);
    case ActivateStep(id, now) => SwitchLists(t, id, 2, 1, now);
    case DeactivateStep(id, now) =>
      SwitchLists(t, id, 2, 1, now);
      SwitchLists(t, id, 1, 2, now);
    case FindStep(q) =>
    case DropStep(r) =>
    case FreeStep =>
  }

  // ---------------------------------------------------------------- the time of change

  lemma AddTime<R>(form: Form, t: RT.Table<R>, node: R, d: RT.RuleData, state: int, now: int)
    requires RT.Known(t) && node !in t.counts.refs
    ensures var u := RT.AddRule(form, t, Some(node), d, state, now).0;
      && (u.chain == t.chain ==> u.lastChanged == t.lastChanged)
      && (u.chain != t.chain ==>
            u.lastChanged == if form == AsWritten && RT.Place(t.chain, t.data, d.key) == |t.chain| then t.lastChanged
                             else now)
  {
    RuleLaws.AddRuleChain(form, t, node, d, state, now);
    var k := RT.Place(t.chain, t.data, d.key);
    if k < |t.chain| { RuleLaws.InsertedExact(t.chain, t.cut, k, node); }
    assert node !in t.chain;
  }

  lemma DeleteTime<R>(form: Form, t: RT.Table<R>, id: UInt32, now: int)
    requires RT.Known(t) && RT.Descending(t.chain, t.data)
    ensures var u := RT.DeleteRule(form, t, id, now).0;
      if u.chain == t.chain then u == t else |u.chain| < |t.chain| && u.lastChanged == now
  {}

  lemma SwitchTime<R>(t: RT.Table<R>, id: UInt32, from: int, to: int, now: int)
    requires RT.Known(t) && from != to
    ensures var u := RT.Switch(t, id, from, to, now).0;
      && RT.Known(u)
      && if Listing(u) == Listing(t) then u == t else u.lastChanged == now
  {
    var u, k := RT.Switch(t, id, from, to, now).0, RT.FirstWithId(t.chain, t.data, id);
    if k < |t.chain| && t.state[t.chain[k]] == from {
      assert Listing(u)[k].state == to && Listing(t)[k].state == from;
    }
  }

  lemma AddAlters<R>(form: Form, t: RT.Table<R>, node: R, d: RT.RuleData, state: int, now: int)
    requires RT.Inv(t) && node !in t.counts.refs
    ensures var u := RT.AddRule(form, t, Some(node), d, state, now).0;
      RT.Known(u) && (Listing(u) == Listing(t) <==> u.chain == t.chain)
  {
    var u := RT.AddRule(form, t, Some(node), d, state, now).0;
    RT.AddInv(form, t, node, d, state, now);
    RT.InvKnown(u);
    RuleLaws.AddRuleChain(form, t, node, d, state, now);
    if u.chain == t.chain {
      assert node !in t.chain;
      EntriesSame(t.chain, t.data, t.state, node, Entry(d, state));
    } else {
      RT.PlaceSplits(t.chain, t.data, d.key);
      KeyListed(t, d.key);
      KeyListed(u, d.key);
      RuleLaws.AddRuleExact(form, t, node, d, state, now);
      assert u.data[node].key == d.key;
    }
  }

  /** The step changes the list, and is not, as written, an addition at the end. */
  ghost predicate Alters<R>(form: Form, t: RT.Table<R>, s: RT.Step<R>)
    requires RT.Inv(t) && RT.Enabled(t, s) && RT.Inv(RT.Apply(form, t, s))
  {
    RT.InvKnown(t);
    RT.InvKnown(RT.Apply(form, t, s));
    Listing(RT.Apply(form, t, s)) != Listing(t) && !(form == AsWritten && RuleLaws.Appends(t, s))
  }

  /** The time of change is taken by the steps that alter the list, and by no other. */
  lemma StepTime<R>(form: Form, t: RT.Table<R>, s: RT.Step<R>)
    requires RT.Inv(t) && RT.Enabled(t, s) && !s.FreeStep?
    ensures RT.Inv(RT.Apply(form, t, s))
    ensures var time := RuleLaws.TimeOf(s);
      if Alters(form, t, s) then time.Some? && RT.Apply(form, t, s).lastChanged == time.value
      else RT.Apply(form, t, s).lastChanged == t.lastChanged
  {
    RT.StepInv(form, t, s);
    RT.InvKnown(t);
    match s
    case AddStep(node, d, initial, now) =>
      if node.Some? {
        AddTime(form, t, node.value, d, initial, now);
        AddAlters(form, t, node.value, d, initial, now);
      }
    case DeleteStep(id, now) => DeleteTime(form, t, id, now);
    case ActivateStep(id, now) => SwitchTime(t, id, 2, 1, now);
    case DeactivateStep(id, now) =>
      SwitchTime(t, id, 2, 1, now);
      SwitchTime(t, id, 1, 2, now);
    case FindStep(q) =>
    case DropStep(r) =>
  }

  ghost predicate SomeAlters<R>(form: Form, t: RT.Table<R>, steps: seq<RT.Step<R>>)
    requires RT.Inv(t) && RT.ValidRun(form, t, steps)
    decreases |steps|
  {
    steps != [] &&
    (RT.StepInv(form, t, steps[0]);
     Alters(form, t, steps[0]) || SomeAlters(form, RT.Apply(form, t, steps[0]), steps[1..]))
  }

  /** A change since a time is reported exactly when the list was changed since, in both forms, except that an
      addition at the end does not count as written. */
  lemma {:induction false} ReportedExactly<R>(form: Form, t: RT.Table<R>, steps: seq<RT.Step<R>>, since: int)
    requires RT.Inv(t) && RT.ValidRun(form, t, steps) && RuleLaws.After(steps, since)
    ensures RT.IsRulesChanged(RT.Run(form, t, steps), since) <==>
            t.lastChanged > since || SomeAlters(form, t, steps)
    decreases |steps|
  {
    if steps != [] {
      RT.StepInv(form, t, steps[0]);
      StepTime(form, t, steps[0]);
      assert forall i :: 0 <= i < |steps[1..]| ==> steps[1..][i] == steps[i + 1];
      ReportedExactly(form, RT.Apply(form, t, steps[0]), steps[1..], since);
    }
  }

  // ---------------------------------------------------------------- the commands

  /** What a command does to the list, the answer being allocated or not. */
  ghost predicate CommandEffect<R>(form: Form, a: seq<Entry>, b: seq<Entry>, command: Protocol.Command,
                                   supply: Protocol.Supply<R>) {
    if !supply.memory then b == a
    else
      match command
      case DeleteRule(_, id) => Deleted(a, b, id)
      case AddRule(data, state) => if supply.node.None? then b == a else Added(a, b, Entry(data, state))
      case ActivateRule(_, id) => Switched(a, b, id, 2, 1)
      case DeactivateRule(_, id) => if form == AsWritten then Switched(a, b, id, 2, 1) else Switched(a, b, id, 1, 2)
      case _ => b == a
  }

  lemma ReleasedParts<R>(form: Form, t: RT.Table<R>, node: R, data: RT.RuleData, state: UInt8, now: int)
    requires RT.Known(t) && node !in t.counts.refs
    ensures var u, v := RT.AddReleased(form, t, Some(node), data, state, now).0,
                        RT.AddRule(form, t, Some(node), data, state, now).0;
      u.chain == v.chain && u.data == v.data && u.state == v.state && u.counts.refs.Keys == v.counts.refs.Keys
  {}

  lemma ReleasedLists<R>(form: Form, t: RT.Table<R>, node: R, data: RT.RuleData, state: UInt8, now: int)
    requires RT.Inv(t) && t.cut == {} && node !in t.counts.refs
    ensures var u := RT.AddReleased(form, t, Some(node), data, state, now).0;
      RT.Known(u) && Added(Listing(t), Listing(u), Entry(data, state))
  {
    AddLists(form, t, node, data, state, now);
    ReleasedParts(form, t, node, data, state, now);
  }

  /** Every command, in either form, does to the list what it should when no back link is missing. */
  lemma CommandLists<R>(form: Form, fw: Protocol.Firewall<R>, i: nat, command: Protocol.Command,
                        supply: Protocol.Supply<R>)
    requires i < |fw.clients| && RT.Inv(fw.rules) && fw.rules.cut == {}
    requires supply.node.Some? ==> supply.node.value !in fw.rules.counts.refs
    ensures RT.Known(fw.rules) && RT.Known(Protocol.Execute(form, fw, i, command, supply).rules)
    ensures CommandEffect(form, Listing(fw.rules), Listing(Protocol.Execute(form, fw, i, command, supply).rules),
                          command, supply)
  {
    RT.InvKnown(fw.rules);
    ProtocolLaws.ExecuteTable(form, fw, i, command, supply);
    if supply.memory {
      match command
      case DeleteRule(_, id) => DeleteLists(form, fw.rules, id, supply.now);
      case AddRule(data, state) =>
        if supply.node.Some? { ReleasedLists(form, fw.rules, supply.node.value, data, state, supply.now); }
      case ActivateRule(_, id) => SwitchLists(fw.rules, id, 2, 1, supply.now);
      case DeactivateRule(_, id) =>
        SwitchLists(fw.rules, id, 2, 1, supply.now);
        SwitchLists(fw.rules, id, 1, 2, supply.now);
      case _ =>
    }
  }

  // ---------------------------------------------------------------- whole runs of the protocol

  predicate Clean<R>(t: RT.Table<R>) {
    t.cut == {} && t.orphans == {}
  }

  lemma ReleasedClean<R>(t: RT.Table<R>, node: R, data: RT.RuleData, state: UInt8, now: int)
    requires RT.Known(t) && Clean(t) && node !in t.counts.refs
    ensures Clean(RT.AddReleased(Corrected, t, Some(node), data, state, now).0)
  {
    RT.LinkClean(RT.Create(t, node, data, state), node, now);
  }

  /** Corrected, no back link is ever missing. */
  lemma EventClean<R>(fw: Protocol.Firewall<R>, e: Protocol.Event<R>)
    requires RT.Inv(fw.rules) && Protocol.Enabled(fw, e) && Clean(fw.rules)
    ensures Clean(Protocol.Apply(Corrected, fw, e).rules)
  {
    if e.CommandEvent? {
      var supply := e.supply;
      RT.InvKnown(fw.rules);
      ProtocolLaws.ExecuteTable(Corrected, fw, Protocol.Find(fw.clients, e.unit), e.command, supply);
      match e.command
      case DeleteRule(_, id) => RT.DeleteClean(fw.rules, id, supply.now);
      case AddRule(data, state) =>
        if supply.node.Some? { ReleasedClean(fw.rules, supply.node.value, data, state, supply.now); }
      case ActivateRule(_, id) => RT.SwitchClean(fw.rules, id, 2, 1, supply.now);
      case DeactivateRule(_, id) => RT.SwitchClean(fw.rules, id, 1, 2, supply.now);
      case _ =>
    }
  }

  /** The two events do the same to the rules: the same command with the same allocations, from any client, at any
      time, with any new object; or no command each. */
  predicate Alike<R>(a: Protocol.Event<R>, b: Protocol.Event<R>) {
    if a.CommandEvent? then
      && b.CommandEvent? && b.command == a.command && b.supply.memory == a.supply.memory
      && b.supply.node.Some? == a.supply.node.Some?
    else !b.CommandEvent?
  }

  lemma OnePlace(a: seq<Entry>, key: Key, k: nat, n: nat)
    requires Between(a, key, k) && Between(a, key, n)
    ensures k == n
  {
    if k < n { CompareSymmetric(a[k].data.key, key); }
    if n < k { CompareSymmetric(a[n].data.key, key); }
  }

  lemma AddedOnce(a: seq<Entry>, b: seq<Entry>, c: seq<Entry>, e: Entry)
    requires Added(a, b, e) && Added(a, c, e)
    ensures b == c
  {
    if !HasKey(a, e.data.key) {
      var k: nat :| Between(a, e.data.key, k) && b == a[..k] + [e] + a[k..];
      var n: nat :| Between(a, e.data.key, n) && c == a[..n] + [e] + a[n..];
      OnePlace(a, e.data.key, k, n);
    }
  }

  /** A command leaves one list only. */
  lemma EffectOnce<R>(form: Form, a: seq<Entry>, b: seq<Entry>, c: seq<Entry>, command: Protocol.Command,
                      s: Protocol.Supply<R>, t: Protocol.Supply<R>)
    requires CommandEffect(form, a, b, command, s) && CommandEffect(form, a, c, command, t)
    requires s.memory == t.memory && s.node.Some? == t.node.Some?
    ensures b == c
  {
    if s.memory && command.AddRule? && s.node.Some? {
      AddedOnce(a, b, c, Entry(command.data, command.state));
    }
  }

  predicate AllAlike<R>(a: seq<Protocol.Event<R>>, b: seq<Protocol.Event<R>>) {
    |a| == |b| && forall k :: 0 <= k < |a| ==> Alike(a[k], b[k])
  }

  lemma AlikeRest<R>(a: seq<Protocol.Event<R>>, b: seq<Protocol.Event<R>>)
    requires AllAlike(a, b) && a != []
    ensures Alike(a[0], b[0]) && AllAlike(a[1..], b[1..])
  {
    assert forall k :: 0 <= k < |a| - 1 ==> a[1..][k] == a[k + 1] && b[1..][k] == b[k + 1];
  }

  /** Two reachable tables of the corrected form that show the same list. */
  ghost predicate SameRules<R>(t: RT.Table<R>, u: RT.Table<R>) {
    && RT.Inv(t) && Clean(t) && RT.Inv(u) && Clean(u)
    && (RT.InvKnown(t); RT.InvKnown(u); Listing(t) == Listing(u))
  }

  lemma EventsDecide<R>(fw: Protocol.Firewall<R>, gw: Protocol.Firewall<R>, e: Protocol.Event<R>, f: Protocol.Event<R>)
    requires SameRules(fw.rules, gw.rules) && Alike(e, f) && Protocol.Enabled(fw, e) && Protocol.Enabled(gw, f)
    ensures SameRules(Protocol.Apply(Corrected, fw, e).rules, Protocol.Apply(Corrected, gw, f).rules)
  {
    ProtocolLaws.StepRules(Corrected, fw, e);
    ProtocolLaws.StepRules(Corrected, gw, f);
    EventClean(fw, e);
    EventClean(gw, f);
    if e.CommandEvent? {
      var i, j := Protocol.Find(fw.clients, e.unit), Protocol.Find(gw.clients, f.unit);
      CommandLists(Corrected, fw, i, e.command, e.supply);
      CommandLists(Corrected, gw, j, f.command, f.supply);
      EffectOnce(Corrected, Listing(fw.rules), Listing(Protocol.Execute(Corrected, fw, i, e.command, e.supply).rules),
                 Listing(Protocol.Execute(Corrected, gw, j, f.command, f.supply).rules), e.command, e.supply, f.supply);
    }
  }

  /** Corrected, the rules after a run are decided by the commands: two runs of the same commands with the same
      allocations leave the same list, whoever sends them, whenever, and whatever objects and clients there are. */
  lemma {:induction false} CommandsDecideRules<R>(fw: Protocol.Firewall<R>, gw: Protocol.Firewall<R>,
                                                  events: seq<Protocol.Event<R>>, others: seq<Protocol.Event<R>>)
    requires SameRules(fw.rules, gw.rules) && AllAlike(events, others)
    requires ProtocolLaws.ValidRun(Corrected, fw, events) && ProtocolLaws.ValidRun(Corrected, gw, others)
    ensures SameRules(ProtocolLaws.Run(Corrected, fw, events).rules, ProtocolLaws.Run(Corrected, gw, others).rules)
    decreases |events|
  {
    if events != [] {
      AlikeRest(events, others);
      ProtocolLaws.RunStep(Corrected, fw, events);
      ProtocolLaws.RunStep(Corrected, gw, others);
      EventsDecide(fw, gw, events[0], others[0]);
      CommandsDecideRules(Protocol.Apply(Corrected, fw, events[0]), Protocol.Apply(Corrected, gw, others[0]),
                          events[1..], others[1..]);
    }
  }
}
