/** What the operations of the rule table guarantee, and exactly when the text as written falls short. */
module RuleLaws {
  import opened Common
  import opened References
  import opened IntrusiveList
  import opened RuleOrder
  import opened RuleTable

  // ---------------------------------------------------------------- FindRule

  /** `FindRule` answers the greatest matching rule, which is the most specific one, and nothing exactly when
      no rule of the chain matches. */
  lemma FindRuleMostSpecific<R>(t: Table<R>, q: Query)
    requires Inv(t)
    ensures match FindRule(t, q).1
      case None => forall r :: r in t.chain ==> !Matches(t.data[r].key, q)
      case Some(best) =>
        && best in t.chain && Matches(t.data[best].key, q)
        && (forall r :: r in t.chain && r != best && Matches(t.data[r].key, q) ==>
              && Compare(t.data[best].key, t.data[r].key) > 0
              && LexGreater(Specificity(t.data[best].key), Specificity(t.data[r].key)))
  {
    var i := FirstMatch(t.chain, t.data, q);
    if i < |t.chain| {
      var best := t.chain[i];
      forall r | r in t.chain && r != best && Matches(t.data[r].key, q)
        ensures Compare(t.data[best].key, t.data[r].key) > 0
        ensures LexGreater(Specificity(t.data[best].key), Specificity(t.data[r].key))
      {
        var j :| 0 <= j < |t.chain| && t.chain[j] == r;
        CompareIsSpecificity(t.data[best].key, t.data[r].key, q);
      }
    }
  }

  /** The answer has a direction in common with the query: a rule for incoming traffic (1) never answers a query for
      outgoing traffic (2), nor the other way round. */
  lemma FindRuleDirection<R>(t: Table<R>, q: Query)
    requires Inv(t) && FindRule(t, q).1.Some?
    ensures var k := t.data[FindRule(t, q).1.value].key;
      && ShareBit(k.direction, q.direction)
      && (q.direction == 1 ==> k.direction % 2 == 1) && (q.direction == 2 ==> k.direction / 2 % 2 == 1)
  {
    ShareBitExactly(t.data[FindRule(t, q).1.value].key.direction, q.direction);
  }

  /** While the chain has a rule for both directions that leaves everything else open, every query of one of them has an
      answer. */
  lemma OpenRuleAnswers<R>(t: Table<R>, q: Query, r: R)
    requires Inv(t) && r in t.chain && t.data[r].key == Key([], [], 0, 0, 0, 3, t.data[r].key.allow)
    requires q.direction == 1 || q.direction == 2
    ensures FindRule(t, q).1.Some?
  {
    ShareBitExactly(3, q.direction);
    FindRuleMostSpecific(t, q);
  }

  /** The caller holds one more reference on the answer, and nothing else has changed. */
  lemma FindRuleLends<R>(t: Table<R>, q: Query)
    requires Known(t)
    ensures var (u, found) := FindRule(t, q);
      match found
      case None => u == t
      case Some(best) =>
        && best in t.counts.refs && best in u.counts.refs
        && u.held == t.held + multiset{best} && u.counts.refs[best] == t.counts.refs[best] + 1
        && u == t.(held := u.held, counts := u.counts)
  {}

  // ---------------------------------------------------------------- AddRule and DeleteRule

  /** The scan depends only on the rules of the chain. */
  lemma {:induction false} PlaceSame<R>(chain: seq<R>, d1: map<R, RuleData>, d2: map<R, RuleData>, key: Key)
    requires forall r :: r in chain ==> r in d1 && r in d2 && d1[r] == d2[r]
    ensures Place(chain, d1, key) == Place(chain, d2, key)
  {
    if chain != [] {
      PlaceSame(chain[1..], d1, d2, key);
    }
  }

  /** What `AddRule` leaves, in terms of the table before. */
  lemma AddRuleChain<R>(form: Form, t: Table<R>, node: R, d: RuleData, state: int, now: int)
    requires Known(t) && node !in t.counts.refs
    ensures var (u, result, rule) := AddRule(form, t, Some(node), d, state, now);
      var i := Place(t.chain, t.data, d.key);
      && u.data == t.data[node := d] && u.state == t.state[node := state]
      && (if i == |t.chain| then
            && u.chain == t.chain + [node] && result == 0 && rule == Some(node)
            && u.cut == (if form == AsWritten && t.chain != [] then t.cut + {node} else t.cut)
            && u.lastChanged == (if form == AsWritten then t.lastChanged else now)
          else if Compare(d.key, t.data[t.chain[i]].key) == 0 then
            && u.chain == t.chain && result == 1 && rule == Some(t.chain[i]) && u.cut == t.cut
            && u.lastChanged == t.lastChanged
            && u.counts.freed == t.counts.freed + [node]
          else
            && u.chain == InsertedBefore(t.chain, t.cut, i, node) && result == 0 && rule == Some(node)
            && u.cut == t.cut - {t.chain[i]} && u.lastChanged == now)
  {
    var c := Create(t, node, d, state);
    PlaceSame(t.chain, t.data, c.data, d.key);
    assert Place(c.chain, c.data, c.data[node].key) == Place(t.chain, t.data, d.key);
  }

  /** The chain has gained exactly the rule, at the i-th place. */
  predicate Gained<R(==)>(before: seq<R>, after: seq<R>, i: nat, node: R) {
    |after| == |before| + 1 && i < |after| && after[i] == node && RemoveAt(after, i) == before
  }

  /** The i-th rule is there and lacks its back link. */
  predicate LacksBackLink<R(==)>(t: Table<R>, i: nat) {
    i < |t.chain| && t.chain[i] in t.cut
  }

  lemma InsertedExact<R>(chain: seq<R>, cut: set<R>, i: nat, node: R)
    requires i < |chain|
    ensures var s := InsertedBefore(chain, cut, i, node);
      && node in s
      && (i > 0 && chain[i] in cut ==> s == [node] + chain[i..])
      && (Gained(chain, s, i, node) <==> i == 0 || chain[i] !in cut)
  {
    assert chain == chain[..i] + chain[i..];
  }

  lemma AppendedExact<R>(chain: seq<R>, node: R)
    ensures Gained(chain, chain + [node], |chain|, node) && node in chain + [node]
  {}

  /** The three outcomes, apart from the table they leave. */
  lemma OutcomeExact<R>(t: Table<R>, node: R, key: Key, chain: seq<R>, result: int, rule: R)
    requires Inv(t)
    requires var i := Place(t.chain, t.data, key);
      if i == |t.chain| then chain == t.chain + [node] && result == 0 && rule == node
      else if Compare(key, t.data[t.chain[i]].key) == 0 then chain == t.chain && result == 1 && rule == t.chain[i]
      else chain == InsertedBefore(t.chain, t.cut, i, node) && result == 0 && rule == node
    ensures var i := Place(t.chain, t.data, key);
      && result == (if HasKey(t.chain, t.data, key) then 1 else 0)
      && (result == 1 ==> chain == t.chain && rule in t.chain && t.data[rule].key == key)
      && (result == 0 ==> rule == node && node in chain)
      && (result == 0 && LacksBackLink(t, i) ==> i > 0 && chain == [node] + t.chain[i..])
      && (result == 0 ==> (Gained(t.chain, chain, i, node) <==> !LacksBackLink(t, i)))
  {
    PlaceSplits(t.chain, t.data, key);
    var i := Place(t.chain, t.data, key);
    if i == |t.chain| {
      AppendedExact(t.chain, node);
    } else {
      CompareSymmetric(key, t.data[t.chain[i]].key);
      InsertedExact(t.chain, t.cut, i, node);
    }
  }

  /** `AddRule` finds an equal rule exactly when there is one.  Otherwise the new rule enters the chain, and the
      chain is the old one plus the new rule if and only if the rule it is put in front of has its back link;
      if that is missing, every greater rule is lost. */
  lemma AddRuleExact<R>(form: Form, t: Table<R>, node: R, d: RuleData, state: int, now: int)
    requires Inv(t) && node !in t.counts.refs
    ensures var (u, result, rule) := AddRule(form, t, Some(node), d, state, now);
      var i := Place(t.chain, t.data, d.key);
      && rule.Some? && result == (if HasKey(t.chain, t.data, d.key) then 1 else 0)
      && (result == 1 ==> u.chain == t.chain && rule.value in t.chain && t.data[rule.value].key == d.key
                          && node in u.counts.freed)
      && (result == 0 ==> rule.value == node && node in u.chain)
      && (result == 0 && LacksBackLink(t, i) ==> i > 0 && u.chain == [node] + t.chain[i..])
      && (result == 0 ==> (Gained(t.chain, u.chain, i, node) <==> !LacksBackLink(t, i)))
  {
    AddRuleChain(form, t, node, d, state, now);
    var (u, result, rule) := AddRule(form, t, Some(node), d, state, now);
    OutcomeExact(t, node, d.key, u.chain, result, rule.value);
  }

  /** Whenever no rule is lost, the chain `AddRule` leaves is the only descending chain of its rules. */
  lemma AddRuleOnlyPlace<R>(form: Form, t: Table<R>, node: R, d: RuleData, state: int, now: int, other: seq<R>)
    requires Inv(t) && node !in t.counts.refs
    requires var (u, result, _) := AddRule(form, t, Some(node), d, state, now);
      && Descending(other, u.data)
      && (forall r :: r in other <==> r in u.chain)
    ensures other == AddRule(form, t, Some(node), d, state, now).0.chain
  {
    AddInv(form, t, node, d, state, now);
    var u := AddRule(form, t, Some(node), d, state, now).0;
    DescendingUnique(other, u.chain, u.data);
  }

  lemma FoundById<R>(t: Table<R>, id: UInt32)
    requires Known(t)
    ensures FirstWithId(t.chain, t.data, id) < |t.chain| <==> exists r :: r in t.chain && t.data[r].id == id
  {
    var i := FirstWithId(t.chain, t.data, id);
    if i < |t.chain| {
      assert t.chain[i] in t.chain;
    }
  }

  lemma UnlinkedExact<R>(chain: seq<R>, cut: set<R>, i: nat)
    requires i < |chain| && Distinct(chain)
    ensures var u := Unlinked(chain, cut, i);
      && chain[i] !in u
      && (i > 0 && chain[i] in cut ==> u == chain[i + 1..] && u != RemoveAt(chain, i))
      && (i == 0 || chain[i] !in cut ==> u == RemoveAt(chain, i))
  {
    UnlinkedMembers(chain, cut, i);
  }

  /** `DeleteRule` finds a rule exactly when the chain has one with the id; it then takes out the first one and
      nothing else if and only if that rule has its back link.  As written the table's reference is never
      given back. */
  lemma DeleteRuleExact<R>(form: Form, t: Table<R>, id: UInt32, now: int)
    requires Inv(t)
    ensures var (u, result) := DeleteRule(form, t, id, now);
      var i := FirstWithId(t.chain, t.data, id);
      && (result == 0 <==> exists r :: r in t.chain && t.data[r].id == id)
      && (result != 0 ==> u == t && result == if form == AsWritten then -1 else 1)
      && (result == 0 ==>
            && i < |t.chain| && t.chain[i] !in u.chain && u.state[t.chain[i]] == 3
            && (u.chain == RemoveAt(t.chain, i) <==> t.chain[i] !in t.cut)
            && (t.chain[i] in t.cut ==> i > 0 && u.chain == t.chain[i + 1..])
            && u.counts.refs[t.chain[i]] == t.counts.refs[t.chain[i]] - Bit(form == Corrected)
            && (t.chain[i] in u.orphans <==> form == AsWritten))
  {
    DescendingDistinct(t.chain, t.data);
    FoundById(t, id);
    var i := FirstWithId(t.chain, t.data, id);
    if i < |t.chain| {
      UnlinkedExact(t.chain, t.cut, i);
    }
  }

  const B_RULE := RuleData(1, Key([98], [], 0, 0, 0, 1, 1))
  const A_RULE := RuleData(2, Key([97], [], 0, 0, 0, 1, 1))

  /** The table with the one rule `B_RULE`, of which the adder still holds its reference. */
  function WithOneRule(): Table<nat> {
    Table([0], {}, map[0 := B_RULE], map[0 := RULE_STATE_ACTIVE], Counts(map[0 := 2], []), multiset{0}, {}, 0)
  }

  lemma FirstAdd()
    ensures AddRule(AsWritten, Empty<nat>(), Some(0), B_RULE, RULE_STATE_ACTIVE, 1).0 == WithOneRule()
    ensures Known(WithOneRule())
  {
    var t := LinkLast(AsWritten, Create(Empty<nat>(), 0, B_RULE, RULE_STATE_ACTIVE), 0, 1);
    assert t.counts.refs == map[0 := 1];
    assert Lend(t, 0).counts.refs == map[0 := 2] && Lend(t, 0).held == multiset{0};
  }

  lemma SecondAdd(t: Table<nat>)
    requires Known(t) && t.chain == [0] && t.cut == {} && t.data == map[0 := B_RULE]
    requires t.counts.refs.Keys == {0} && t.lastChanged == 0
    ensures var u := AddRule(AsWritten, t, Some(1), A_RULE, RULE_STATE_ACTIVE, 2).0;
      Known(u) && u.chain == [0, 1] && u.cut == {1} && u.data == map[0 := B_RULE, 1 := A_RULE] && u.lastChanged == 0
  {
    AddRuleChain(AsWritten, t, 1, A_RULE, RULE_STATE_ACTIVE, 2);
    assert Compare(A_RULE.key, B_RULE.key) == -1;
    assert [0][1..] == [];
    assert Place([0], t.data, A_RULE.key) == 1 + Place([], t.data, A_RULE.key);
  }

  /** As written a rule that is added and deleted again has the count 1 although nobody has it, and stays for ever. */
  lemma DeletedRuleStays()
    ensures var t := AddRule(AsWritten, Empty<nat>(), Some(0), B_RULE, RULE_STATE_ACTIVE, 1).0;
      && Known(t) && 0 in t.counts.refs && Known(Drop(t, 0))
      && var w := DeleteRule(AsWritten, Drop(t, 0), 1, 2).0;
         var c := DeleteRule(Corrected, Drop(t, 0), 1, 2).0;
         && w.chain == [] && w.held == multiset{} && w.counts == Counts(map[0 := 1], [])
         && c.chain == [] && c.held == multiset{} && c.counts == Counts(map[0 := 0], [0])
  {
    FirstAdd();
    var t := Drop(AddRule(AsWritten, Empty<nat>(), Some(0), B_RULE, RULE_STATE_ACTIVE, 1).0, 0);
    assert FirstWithId(t.chain, t.data, 1) == 0;
    assert t.counts.refs == map[0 := 1];
    assert t.counts.refs[0 := 0] == map[0 := 0];
  }

  lemma LastDelete(t: Table<nat>)
    requires Known(t) && t.chain == [0, 1] && t.cut == {1} && t.data == map[0 := B_RULE, 1 := A_RULE]
    ensures DeleteRule(AsWritten, t, 2, 3).0.chain == []
  {
    assert [0, 1][1..] == [1];
    assert FirstWithId([1], t.data, 2) == 0;
    assert FirstWithId([0, 1], t.data, 2) == 1;
  }

  /** As written, an add at the tail followed by its deletion loses a rule nobody deleted. */
  lemma TailDeleteLosesRules()
    ensures var t1 := AddRule(AsWritten, Empty<nat>(), Some(0), B_RULE, RULE_STATE_ACTIVE, 1).0;
      && Known(t1) && t1.chain == [0] && 1 !in t1.counts.refs
      && var t2 := AddRule(AsWritten, t1, Some(1), A_RULE, RULE_STATE_ACTIVE, 2).0;
         && Known(t2) && t2.chain == [0, 1] && t2.cut == {1} && t2.lastChanged == 0
         && DeleteRule(AsWritten, t2, 2, 3).0.chain == []
  {
    FirstAdd();
    var t1 := AddRule(AsWritten, Empty<nat>(), Some(0), B_RULE, RULE_STATE_ACTIVE, 1).0;
    SecondAdd(t1);
    LastDelete(AddRule(AsWritten, t1, Some(1), A_RULE, RULE_STATE_ACTIVE, 2).0);
  }

  // ---------------------------------------------------------------- as written against corrected, over runs

  /** The step does not work on a rule whose back link is missing: the test of `prev` takes the right branch. */
  ghost predicate BackLinkPresent<R>(t: Table<R>, s: Step<R>)
    requires Inv(t)
  {
    match s
    case AddStep(node, d, _, _) =>
      var i := Place(t.chain, t.data, d.key);
      node.Some? && i < |t.chain| && Compare(d.key, t.data[t.chain[i]].key) > 0 ==> t.chain[i] !in t.cut
    case DeleteStep(id, _) =>
      var i := FirstWithId(t.chain, t.data, id);
      i < |t.chain| ==> t.chain[i] !in t.cut
    case _ => true
  }

  ghost predicate AllBackLinksPresent<R>(t: Table<R>, steps: seq<Step<R>>)
    requires Inv(t) && ValidRun(AsWritten, t, steps)
    decreases |steps|
  {
    steps != [] ==>
      && BackLinkPresent(t, steps[0])
      && (StepInv(AsWritten, t, steps[0]); AllBackLinksPresent(Apply(AsWritten, t, steps[0]), steps[1..]))
  }

  /** The two forms show the same chain before the run and after every step. */
  ghost predicate SameChains<R>(w: Table<R>, c: Table<R>, steps: seq<Step<R>>)
    requires Inv(w) && ValidRun(AsWritten, w, steps)
    requires Inv(c) && ValidRun(Corrected, c, steps)
    decreases |steps|
  {
    && w.chain == c.chain
    && (steps != [] ==>
          (StepInv(AsWritten, w, steps[0]);
           StepInv(Corrected, c, steps[0]);
           SameChains(Apply(AsWritten, w, steps[0]), Apply(Corrected, c, steps[0]), steps[1..])))
  }

  ghost predicate Similar<R>(w: Table<R>, c: Table<R>) {
    w.chain == c.chain && w.data == c.data && c.cut == {}
  }

  lemma AddSimilar<R>(w: Table<R>, c: Table<R>, node: R, d: RuleData, state: int, now: int)
    requires Known(w) && Known(c) && Similar(w, c) && node !in w.counts.refs && node !in c.counts.refs
    requires w.chain != [] ==> w.chain[0] !in w.cut
    ensures var i := Place(w.chain, w.data, d.key);
      var u := AddRule(AsWritten, w, Some(node), d, state, now).0;
      var v := AddRule(Corrected, c, Some(node), d, state, now).0;
      && (u.chain == v.chain <==>
            !(i < |w.chain| && Compare(d.key, w.data[w.chain[i]].key) > 0 && w.chain[i] in w.cut))
      && (u.chain == v.chain ==> Similar(u, v))
  {
    AddRuleChain(AsWritten, w, node, d, state, now);
    AddRuleChain(Corrected, c, node, d, state, now);
    var i := Place(w.chain, w.data, d.key);
    if i < |w.chain| {
      InsertedExact(w.chain, w.cut, i, node);
      InsertedExact(w.chain, {}, i, node);
    }
  }

  lemma DeleteSimilar<R>(w: Table<R>, c: Table<R>, id: UInt32, now: int)
    requires Known(w) && Known(c) && Similar(w, c)
    requires w.chain != [] ==> w.chain[0] !in w.cut
    ensures var i := FirstWithId(w.chain, w.data, id);
      var u, v := DeleteRule(AsWritten, w, id, now).0, DeleteRule(Corrected, c, id, now).0;
      && (u.chain == v.chain <==> !(i < |w.chain| && w.chain[i] in w.cut))
      && (u.chain == v.chain ==> Similar(u, v))
  {}

  lemma SwitchEffect<R>(t: Table<R>, id: UInt32, from: int, to: int, now: int)
    requires Known(t)
    ensures var u := Switch(t, id, from, to, now).0;
      && u == t.(state := u.state, lastChanged := u.lastChanged)
      && (u.state == t.state || exists r :: r in t.state && u.state == t.state[r := to])
      && (u == t || u.lastChanged == now)
  {
    var i := FirstWithId(t.chain, t.data, id);
    if i < |t.chain| { assert t.chain[i] in t.state; }
  }

  lemma StepSimilar<R>(w: Table<R>, c: Table<R>, s: Step<R>)
    requires Inv(w) && Inv(c) && Similar(w, c) && Enabled(w, s) && Enabled(c, s)
    ensures BackLinkPresent(w, s) <==> Apply(AsWritten, w, s).chain == Apply(Corrected, c, s).chain
    ensures BackLinkPresent(w, s) ==> Similar(Apply(AsWritten, w, s), Apply(Corrected, c, s))
  {
    match s
    case AddStep(node, d, state, now) => if node.Some? { AddSimilar(w, c, node.value, d, state, now); }
    case DeleteStep(id, now) => DeleteSimilar(w, c, id, now);
    case ActivateStep(id, now) =>
      SwitchEffect(w, id, RULE_STATE_INACTIVE, RULE_STATE_ACTIVE, now);
      SwitchEffect(c, id, RULE_STATE_INACTIVE, RULE_STATE_ACTIVE, now);
    case DeactivateStep(id, now) =>
      SwitchEffect(w, id, RULE_STATE_INACTIVE, RULE_STATE_ACTIVE, now);
      SwitchEffect(c, id, RULE_STATE_ACTIVE, RULE_STATE_INACTIVE, now);
    case _ =>
  }

  /** Over a whole run the table as written is, after every step, the table it should be if and only if no step
      works on a rule whose back link is missing. */
  lemma {:induction false} RunsAgreeExactly<R>(w: Table<R>, c: Table<R>, steps: seq<Step<R>>)
    requires Inv(w) && ValidRun(AsWritten, w, steps)
    requires Inv(c) && ValidRun(Corrected, c, steps)
    requires Similar(w, c)
    ensures SameChains(w, c, steps) <==> AllBackLinksPresent(w, steps)
    decreases |steps|
  {
    if steps != [] {
      var s := steps[0];
      StepInv(AsWritten, w, s);
      StepInv(Corrected, c, s);
      StepSimilar(w, c, s);
      if BackLinkPresent(w, s) {
        RunsAgreeExactly(Apply(AsWritten, w, s), Apply(Corrected, c, s), steps[1..]);
      }
    }
  }

  // ---------------------------------------------------------------- activation

  /** Deactivation as written behaves as it should exactly when the command meets no rule, or one that is
      neither active nor inactive. */
  lemma DeactivateAgrees<R>(t: Table<R>, id: UInt32, now: int)
    requires Inv(t)
    ensures var i := FirstWithId(t.chain, t.data, id);
      DeactivateRule(AsWritten, t, id, now) == DeactivateRule(Corrected, t, id, now) <==>
        (i == |t.chain| || t.state[t.chain[i]] !in {RULE_STATE_ACTIVE, RULE_STATE_INACTIVE})
  {
    var i := FirstWithId(t.chain, t.data, id);
    if i < |t.chain| {
      assert t.chain[i] in t.state;
    }
  }

  lemma SwitchBack<R>(t: Table<R>, id: UInt32, from: int, to: int, now: int, later: int)
    requires Known(t)
    ensures var (u, result) := Switch(t, id, from, to, now);
      Known(u) && (result == 0 ==> Switch(u, id, to, from, later) == (t.(lastChanged := later), 0))
  {
    var i := FirstWithId(t.chain, t.data, id);
    if i < |t.chain| && t.state[t.chain[i]] == from {
      assert t.state[t.chain[i] := to][t.chain[i] := from] == t.state;
    }
  }

  /** Corrected, activation undoes deactivation up to the time of change, and conversely. */
  lemma ActivationRoundTrip<R>(t: Table<R>, id: UInt32, now: int, later: int)
    requires Known(t)
    ensures var (u, result) := DeactivateRule(Corrected, t, id, now);
      Known(u) && (result == 0 ==> ActivateRule(u, id, later) == (t.(lastChanged := later), 0))
    ensures var (u, result) := ActivateRule(t, id, now);
      Known(u) && (result == 0 ==> DeactivateRule(Corrected, u, id, later) == (t.(lastChanged := later), 0))
  {
    SwitchBack(t, id, RULE_STATE_ACTIVE, RULE_STATE_INACTIVE, now, later);
    SwitchBack(t, id, RULE_STATE_INACTIVE, RULE_STATE_ACTIVE, now, later);
  }

  /** As written the command leaves an active rule active and says there was nothing to do. */
  lemma ActiveStaysActive()
    ensures var t := AddRule(AsWritten, Empty<nat>(), Some(0), B_RULE, RULE_STATE_ACTIVE, 1).0;
      && Known(t)
      && var (w, left) := DeactivateRule(AsWritten, t, 1, 2);
         var (c, switched) := DeactivateRule(Corrected, t, 1, 2);
         && w.state == map[0 := RULE_STATE_ACTIVE] && left == 1
         && c.state == map[0 := RULE_STATE_INACTIVE] && switched == 0
  {
    FirstAdd();
    var t := AddRule(AsWritten, Empty<nat>(), Some(0), B_RULE, RULE_STATE_ACTIVE, 1).0;
    assert FirstWithId(t.chain, t.data, 1) == 0;
  }

  /** As written, a rule once active is never inactive again, whatever commands follow. */
  lemma {:induction false} AsWrittenNeverDeactivates<R>(t: Table<R>, steps: seq<Step<R>>, r: R)
    requires Inv(t) && ValidRun(AsWritten, t, steps)
    requires r in t.state && r in t.data && t.state[r] in {RULE_STATE_ACTIVE, RULE_STATE_DELETED}
    ensures r in Run(AsWritten, t, steps).state
    ensures Run(AsWritten, t, steps).state[r] in {RULE_STATE_ACTIVE, RULE_STATE_DELETED}
    decreases |steps|
  {
    if steps != [] {
      StepInv(AsWritten, t, steps[0]);
      StateAfter(t, steps[0], r);
      AsWrittenNeverDeactivates(Apply(AsWritten, t, steps[0]), steps[1..], r);
    }
  }

  /** The states one step can leave a known rule in, as written. */
  lemma StateAfter<R>(t: Table<R>, s: Step<R>, r: R)
    requires Inv(t) && Enabled(t, s) && r in t.state && r in t.data
    ensures var u := Apply(AsWritten, t, s);
      && r in u.state && r in u.data
      && (u.state[r] == t.state[r] || u.state[r] == RULE_STATE_ACTIVE || u.state[r] == RULE_STATE_DELETED)
  {
    match s
    case AddStep(node, d, initial, now) =>
      if node.Some? { AddRuleChain(AsWritten, t, node.value, d, initial, now); }
    case ActivateStep(id, now) => SwitchEffect(t, id, RULE_STATE_INACTIVE, RULE_STATE_ACTIVE, now);
    case DeactivateStep(id, now) => SwitchEffect(t, id, RULE_STATE_INACTIVE, RULE_STATE_ACTIVE, now);
    case _ =>
  }

  // ---------------------------------------------------------------- staleness

  /** The clock reading of a step, for the steps that take one. */
  function TimeOf<R>(s: Step<R>): Option<int> {
    match s
    case AddStep(_, _, _, now) => Some(now)
    case DeleteStep(_, now) => Some(now)
    case ActivateStep(_, now) => Some(now)
    case DeactivateStep(_, now) => Some(now)
    case _ => None
  }

  /** Every reading of the run is later than `since`, and the table is not being torn down. */
  ghost predicate After<R>(steps: seq<Step<R>>, since: int) {
    forall i :: 0 <= i < |steps| ==>
      !steps[i].FreeStep? && (TimeOf(steps[i]).Some? ==> TimeOf(steps[i]).value > since)
  }

  /** The step appends a rule at the tail. */
  ghost predicate Appends<R>(t: Table<R>, s: Step<R>)
    requires Inv(t)
  {
    s.AddStep? && s.node.Some? && Place(t.chain, t.data, s.d.key) == |t.chain|
  }

  ghost function AppendCount<R>(form: Form, t: Table<R>, steps: seq<Step<R>>): nat
    requires Inv(t) && ValidRun(form, t, steps)
    decreases |steps|
  {
    if steps == [] then 0
    else
      StepInv(form, t, steps[0]);
      (if Appends(t, steps[0]) then 1 else 0) + AppendCount(form, Apply(form, t, steps[0]), steps[1..])
  }

  /** The rules of `t` are still there, in place, unchanged; there may be more behind them. */
  ghost predicate Extends<R>(t: Table<R>, u: Table<R>) {
    && t.chain <= u.chain
    && (forall r :: r in t.chain ==>
          && r in t.data && r in u.data && t.data[r] == u.data[r]
          && r in t.state && r in u.state && t.state[r] == u.state[r])
  }

  lemma AddQuiet<R>(form: Form, t: Table<R>, node: R, d: RuleData, state: int, now: int, since: int)
    requires Known(t) && node !in t.counts.refs && now > since
    requires AddRule(form, t, Some(node), d, state, now).0.lastChanged <= since
    ensures var u := AddRule(form, t, Some(node), d, state, now).0;
      var last := Place(t.chain, t.data, d.key) == |t.chain|;
      && t.lastChanged <= since && Extends(t, u)
      && (last ==> form == AsWritten)
      && |u.chain| == |t.chain| + (if last then 1 else 0)
  {
    AddRuleChain(form, t, node, d, state, now);
    assert node !in t.chain;
  }

  lemma DeleteQuiet<R>(form: Form, t: Table<R>, id: UInt32, now: int, since: int)
    requires Known(t) && now > since
    requires DeleteRule(form, t, id, now).0.lastChanged <= since
    ensures DeleteRule(form, t, id, now).0 == t
  {}

  /** A step that does not move the time of change past `since` changes nothing in the chain, unless it appends
      as written. */
  lemma QuietStep<R>(form: Form, t: Table<R>, s: Step<R>, since: int)
    requires Inv(t) && Enabled(t, s)
    requires !s.FreeStep? && (TimeOf(s).Some? ==> TimeOf(s).value > since)
    requires Apply(form, t, s).lastChanged <= since
    ensures var u := Apply(form, t, s);
      && t.lastChanged <= since
      && Extends(t, u)
      && (Appends(t, s) ==> form == AsWritten)
      && |u.chain| == |t.chain| + (if Appends(t, s) then 1 else 0)
  {
    match s
    case AddStep(node, d, initial, now) => if node.Some? { AddQuiet(form, t, node.value, d, initial, now, since); }
    case DeleteStep(id, now) => DeleteQuiet(form, t, id, now, since);
    case ActivateStep(id, now) => SwitchEffect(t, id, RULE_STATE_INACTIVE, RULE_STATE_ACTIVE, now);
    case DeactivateStep(id, now) =>
      SwitchEffect(t, id, RULE_STATE_INACTIVE, RULE_STATE_ACTIVE, now);
      SwitchEffect(t, id, RULE_STATE_ACTIVE, RULE_STATE_INACTIVE, now);
    case FindStep(q) =>
    case DropStep(_) =>
  }

  lemma ExtendsOn<R>(t: Table<R>, v: Table<R>, u: Table<R>)
    requires Extends(t, v) && Extends(v, u)
    ensures Extends(t, u) && (u.chain == t.chain <==> |u.chain| == |t.chain|)
  {
    assert forall r :: r in t.chain ==> r in v.chain;
  }

  /** If the table reports no change since `since`, then, corrected, it is what it was; as written, the rules of
      that time are all in place and unchanged, and the chain is the same if and only if nothing was appended
      at the tail since. */
  lemma {:induction false} UnchangedMeansSame<R>(form: Form, t: Table<R>, steps: seq<Step<R>>, since: int)
    requires Inv(t) && ValidRun(form, t, steps) && After(steps, since)
    requires !IsRulesChanged(Run(form, t, steps), since)
    ensures var u := Run(form, t, steps);
      && t.lastChanged <= since
      && Extends(t, u)
      && |u.chain| == |t.chain| + AppendCount(form, t, steps)
      && (form == Corrected ==> AppendCount(form, t, steps) == 0)
      && (u.chain == t.chain <==> AppendCount(form, t, steps) == 0)
    decreases |steps|
  {
    if steps != [] {
      var s := steps[0];
      StepInv(form, t, s);
      var v := Apply(form, t, s);
      assert forall i :: 0 <= i < |steps[1..]| ==> steps[1..][i] == steps[i + 1];
      UnchangedMeansSame(form, v, steps[1..], since);
      QuietStep(form, t, s, since);
      ExtendsOn(t, v, Run(form, t, steps));
    }
  }

  lemma {:induction false} MatchSame<R>(a: seq<R>, b: seq<R>, d1: map<R, RuleData>, d2: map<R, RuleData>, q: Query)
    requires a <= b
    requires forall r :: r in a ==> r in d1 && r in d2 && d1[r] == d2[r]
    requires forall r :: r in b ==> r in d2
    ensures FirstMatch(a, d1, q) < |a| ==> FirstMatch(b, d2, q) == FirstMatch(a, d1, q)
    ensures a == b ==> FirstMatch(b, d2, q) == FirstMatch(a, d1, q)
  {
    if a != [] {
      MatchSame(a[1..], b[1..], d1, d2, q);
    }
  }

  /** Behind a part in which nothing matches, the answer depends on the rest. */
  lemma MatchBehind<R>(a: seq<R>, b: seq<R>, d1: map<R, RuleData>, d2: map<R, RuleData>, q: Query)
    requires a <= b
    requires forall r :: r in a ==> r in d1 && r in d2 && d1[r] == d2[r]
    requires forall r :: r in b ==> r in d2
    requires FirstMatch(a, d1, q) == |a|
    ensures FirstMatch(b, d2, q) == |b| <==> forall r :: r in b[|a|..] ==> !Matches(d2[r].key, q)
  {
    var i := FirstMatch(b, d2, q);
    assert forall j :: 0 <= j < |a| ==> b[j] == a[j] && !Matches(d1[a[j]].key, q);
    if i < |b| {
      assert b[i] == b[|a|..][i - |a|];
    }
  }

  /** A socket that trusts `IsRulesChanged` uses the answer `FindRule` would give now if and only if it had found a rule
      or none of the rules that have come behind its own since matches; corrected, none has come. */
  lemma StaleAnswerSound<R>(form: Form, t: Table<R>, steps: seq<Step<R>>, since: int, q: Query)
    requires Inv(t) && ValidRun(form, t, steps) && After(steps, since)
    requires !IsRulesChanged(Run(form, t, steps), since)
    ensures var u := Run(form, t, steps);
      && t.chain <= u.chain
      && (form == Corrected ==> u.chain == t.chain)
      && (FindRule(u, q).1 == FindRule(t, q).1 <==>
            FindRule(t, q).1.Some? || forall r :: r in u.chain[|t.chain|..] ==> !Matches(u.data[r].key, q))
  {
    UnchangedMeansSame(form, t, steps, since);
    var u := Run(form, t, steps);
    MatchSame(t.chain, u.chain, t.data, u.data, q);
    if FirstMatch(t.chain, t.data, q) == |t.chain| {
      MatchBehind(t.chain, u.chain, t.data, u.data, q);
    }
  }

  /** As written the other case does occur: a first rule arrives and nobody notices. */
  lemma UnnoticedAppend()
    ensures var d := RuleData(1, Key([98], [], 0, 0, 0, 1, 1));
      var q := Query([98], [], 2, 1, 6, 1);
      var u := AddRule(AsWritten, Empty<nat>(), Some(0), d, RULE_STATE_ACTIVE, 5).0;
      && Inv(u) && !IsRulesChanged(u, 4)
      && FindRule(Empty<nat>(), q).1 == None && FindRule(u, q).1 == Some(0)
  {
    var d := RuleData(1, Key([98], [], 0, 0, 0, 1, 1));
    AddInv(AsWritten, Empty<nat>(), 0, d, RULE_STATE_ACTIVE, 5);
    var u := AddRule(AsWritten, Empty<nat>(), Some(0), d, RULE_STATE_ACTIVE, 5).0;
    assert u.chain == [0];
    assert ShareBit(1, 1);
  }
}
