/** The rule table as a state machine (Kext/rule.cpp, Kext/rule.h).  The chain of rules is kept in strictly
    descending `Compare` order; every operation is one lock-protected section. */
module RuleTable {
  import opened Common
  import opened References
  import opened IntrusiveList
  import opened RuleOrder

  const RULE_STATE_ACTIVE := 1
  const RULE_STATE_INACTIVE := 2
  const RULE_STATE_DELETED := 3

  datatype RuleData = RuleData(id: UInt32, key: Key)

  /** `chain` is what the links lead to from `root`.  `cut` are the rules whose `prev` is null although they
      are not the first.  `orphans` are the rules that left the chain while the table's reference to them was
      never released.  `held` are the references of callers. */
  datatype Table<R> = Table(
    chain: seq<R>,
    cut: set<R>,
    data: map<R, RuleData>,
    state: map<R, int>,
    counts: Counts<R>,
    held: multiset<R>,
    orphans: set<R>,
    lastChanged: int)

  function Owners<R(==)>(t: Table<R>, r: R): int {
    Bit(r in t.chain) + Bit(r in t.orphans) + t.held[r]
  }

  ghost predicate Descending<R>(chain: seq<R>, data: map<R, RuleData>) {
    && (forall r :: r in chain ==> r in data)
    && (forall i, j :: 0 <= i < j < |chain| ==> Compare(data[chain[i]].key, data[chain[j]].key) > 0)
  }

  ghost predicate Shape<R>(t: Table<R>) {
    && (forall r :: r in t.chain ==> r in t.counts.refs)
    && Descending(t.chain, t.data)
    && (t.chain != [] ==> t.chain[0] !in t.cut)
    && (forall r :: r in t.counts.refs ==> r in t.data && r in t.state)
    && (forall r :: r in t.data ==> r in t.counts.refs)
    && (forall r :: r in t.orphans ==> r in t.counts.refs && r !in t.chain)
    && (forall r :: r in t.held ==> r in t.counts.refs)
    && (forall r :: r in t.cut ==> r in t.counts.refs)
  }

  ghost predicate Law<R>(t: Table<R>) {
    && t.counts.Good()
    && (forall r :: r in t.counts.refs ==> t.counts.refs[r] == Owners(t, r))
  }

  ghost predicate Inv<R>(t: Table<R>) {
    Shape(t) && Law(t)
  }

  function Empty<R>(): (t: Table<R>)
    ensures Inv(t)
  {
    Table([], {}, map[], map[], Counts(map[], []), multiset{}, {}, 0)
  }

  // ---------------------------------------------------------------- operations

  /** Where the scan of `AddRule` stops: at the first rule that is not greater. */
  function Place<R>(chain: seq<R>, data: map<R, RuleData>, key: Key): (i: nat)
    requires forall r :: r in chain ==> r in data
    ensures i <= |chain|
    ensures forall j :: 0 <= j < i ==> Compare(key, data[chain[j]].key) < 0
    ensures i < |chain| ==> Compare(key, data[chain[i]].key) >= 0
  {
    if chain == [] || Compare(key, data[chain[0]].key) >= 0 then 0
    else 1 + Place(chain[1..], data, key)
  }

  predicate HasKey<R>(chain: seq<R>, data: map<R, RuleData>, key: Key)
    requires forall r :: r in chain ==> r in data
  {
    exists r :: r in chain && data[r].key == key
  }

  /** The first rule with the id, or |chain|. */
  function FirstWithId<R>(chain: seq<R>, data: map<R, RuleData>, id: UInt32): (i: nat)
    requires forall r :: r in chain ==> r in data
    ensures i <= |chain|
    ensures forall j :: 0 <= j < i ==> data[chain[j]].id != id
    ensures i < |chain| ==> data[chain[i]].id == id
  {
    if chain == [] || data[chain[0]].id == id then 0
    else 1 + FirstWithId(chain[1..], data, id)
  }

  /** The first rule that matches, or |chain|. */
  function FirstMatch<R>(chain: seq<R>, data: map<R, RuleData>, q: Query): (i: nat)
    requires forall r :: r in chain ==> r in data
    ensures i <= |chain|
    ensures forall j :: 0 <= j < i ==> !Matches(data[chain[j]].key, q)
    ensures i < |chain| ==> Matches(data[chain[i]].key, q)
  {
    if chain == [] || Matches(data[chain[0]].key, q) then 0
    else 1 + FirstMatch(chain[1..], data, q)
  }

  /** What a rule with a null `prev` at position `i` makes the table lose. */
  function Lost<R(==)>(chain: seq<R>, cut: set<R>, i: nat): set<R>
    requires i < |chain|
  {
    if i > 0 && chain[i] in cut then ToSet(chain[..i]) else {}
  }

  /** The new rule object with the count `Init` gives it. */
  function Create<R>(t: Table<R>, node: R, d: RuleData, state: int): Table<R>
    requires node !in t.counts.refs
  {
    t.(data := t.data[node := d], state := t.state[node := state], counts := t.counts.Track(node, 1))
  }

  function Lend<R>(t: Table<R>, r: R): Table<R>
    requires r in t.counts.refs
  {
    t.(counts := t.counts.Retain(r), held := t.held + multiset{r})
  }

  /** The new rule goes to the end.  As written, its `prev` is not set and the time of change is not taken
      (Kext/rule.cpp:202-213); corrected, both are. */
  function LinkLast<R(==)>(form: Form, t: Table<R>, node: R, now: int): Table<R> {
    t.(chain := t.chain + [node],
       cut := if form == AsWritten && t.chain != [] then t.cut + {node} else t.cut,
       lastChanged := if form == AsWritten then t.lastChanged else now)
  }

  /** The new rule goes in front of the i-th, which is smaller. */
  function LinkBefore<R(==)>(t: Table<R>, node: R, i: nat, now: int): Table<R>
    requires i < |t.chain|
  {
    t.(chain := InsertedBefore(t.chain, t.cut, i, node), cut := t.cut - {t.chain[i]},
       orphans := t.orphans + Lost(t.chain, t.cut, i), lastChanged := now)
  }

  /** The three outcomes of `AddRule` once the new rule exists: no smaller or equal rule is met, an equal rule
      is met and the new one deleted again, or a smaller rule is met. */
  function Link<R(==)>(form: Form, t: Table<R>, node: R, now: int): (Table<R>, int, R)
    requires forall r :: r in t.chain ==> r in t.data && r in t.counts.refs
    requires node in t.data && node in t.counts.refs
  {
    var i := Place(t.chain, t.data, t.data[node].key);
    if i == |t.chain| then (Lend(LinkLast(form, t, node, now), node), 0, node)
    else if Compare(t.data[node].key, t.data[t.chain[i]].key) == 0 then
      (Lend(t.(counts := t.counts.Release(node)), t.chain[i]), 1, t.chain[i])
    else (Lend(LinkBefore(t, node, i, now), node), 0, node)
  }

  /** `AddRule`; `node` is None when the rule could not be created. */
  function AddRule<R(==)>(form: Form, t: Table<R>, node: Option<R>, d: RuleData, state: int, now: int)
    : (Table<R>, int, Option<R>)
    requires forall r :: r in t.chain ==> r in t.data && r in t.counts.refs
    requires node.Some? ==> node.value !in t.counts.refs
  {
    match node
    case None => (t, -1, None)
    case Some(r) =>
      var (u, result, rule) := Link(form, Create(t, r, d, state), r, now);
      (u, result, Some(rule))
  }

  /** `RemoveFromChain`, before anybody releases the rule. */
  function TakeOut<R(==)>(t: Table<R>, i: nat): Table<R>
    requires i < |t.chain|
  {
    t.(chain := Unlinked(t.chain, t.cut, i), cut := Mended(t.chain, t.cut, i),
       orphans := t.orphans + Lost(t.chain, t.cut, i) + {t.chain[i]})
  }

  /** `DeleteRule`.  As written it unlinks the rule but does not release the table's reference
      (Kext/rule.cpp:230-231), and it answers -1 where its caller expects 1 (Kext/rule.cpp:223). */
  function DeleteRule<R(==)>(form: Form, t: Table<R>, id: UInt32, now: int): (Table<R>, int)
    requires forall r :: r in t.chain ==> r in t.data && r in t.counts.refs
  {
    var i := FirstWithId(t.chain, t.data, id);
    if i == |t.chain| then (t, if form == AsWritten then -1 else 1)
    else
      var r := t.chain[i];
      var u := TakeOut(t.(state := t.state[r := RULE_STATE_DELETED], lastChanged := now), i);
      (if form == AsWritten then u else u.(counts := u.counts.Release(r), orphans := u.orphans - {r}), 0)
  }

  /** Both activation commands: move the first rule with the id from one state to another. */
  function Switch<R>(t: Table<R>, id: UInt32, from: int, to: int, now: int): (Table<R>, int)
    requires forall r :: r in t.chain ==> r in t.data && r in t.state
  {
    var i := FirstWithId(t.chain, t.data, id);
    if i == |t.chain| then (t, -1)
    else if t.state[t.chain[i]] == from then
      (t.(state := t.state[t.chain[i] := to], lastChanged := now), 0)
    else (t, 1)
  }

  function ActivateRule<R>(t: Table<R>, id: UInt32, now: int): (Table<R>, int)
    requires forall r :: r in t.chain ==> r in t.data && r in t.state
  {
    Switch(t, id, RULE_STATE_INACTIVE, RULE_STATE_ACTIVE, now)
  }

  /** As written, `DeactivateRule` repeats the body of `ActivateRule` (Kext/rule.cpp:288-292). */
  function DeactivateRule<R>(form: Form, t: Table<R>, id: UInt32, now: int): (Table<R>, int)
    requires forall r :: r in t.chain ==> r in t.data && r in t.state
  {
    if form == AsWritten then Switch(t, id, RULE_STATE_INACTIVE, RULE_STATE_ACTIVE, now)
    else Switch(t, id, RULE_STATE_ACTIVE, RULE_STATE_INACTIVE, now)
  }

  function FindRule<R>(t: Table<R>, q: Query): (Table<R>, Option<R>)
    requires forall r :: r in t.chain ==> r in t.data && r in t.counts.refs
  {
    var i := FirstMatch(t.chain, t.data, q);
    if i == |t.chain| then (t, None) else (Lend(t, t.chain[i]), Some(t.chain[i]))
  }

  /** A caller releases a rule it got. */
  function Drop<R>(t: Table<R>, r: R): Table<R>
    requires r in t.counts.refs
  {
    t.(counts := t.counts.Release(r), held := t.held - multiset{r})
  }

  /** An addition whose caller releases the rule it got. */
  function AddReleased<R(==)>(form: Form, t: Table<R>, node: Option<R>, d: RuleData, state: int, now: int)
    : (Table<R>, int)
    requires forall r :: r in t.chain ==> r in t.data && r in t.counts.refs
    requires node.Some? ==> node.value !in t.counts.refs
  {
    var (u, result, rule) := AddRule(form, t, node, d, state, now);
    (if rule.Some? && rule.value in u.counts.refs then Drop(u, rule.value) else u, result)
  }

  /** `Rules::Free` takes the first rule out until none is left. */
  function FreeAll<R>(t: Table<R>): Table<R>
    requires forall r :: r in t.chain ==> r in t.counts.refs
  {
    t.(chain := [], cut := {}, counts := ReleaseAll(t.counts, t.chain))
  }

  /** `IsRulesChanged`. */
  predicate IsRulesChanged<R>(t: Table<R>, fromTime: int) {
    t.lastChanged > fromTime
  }

  // ---------------------------------------------------------------- the objects a section knows

  lemma DeleteObjects<R>(form: Form, t: Table<R>, id: UInt32, now: int)
    requires Known(t)
    ensures DeleteRule(form, t, id, now).0.counts.refs.Keys == t.counts.refs.Keys
  {}

  lemma SwitchObjects<R>(form: Form, t: Table<R>, id: UInt32, now: int)
    requires Known(t)
    ensures ActivateRule(t, id, now).0.counts.refs.Keys == t.counts.refs.Keys
    ensures DeactivateRule(form, t, id, now).0.counts.refs.Keys == t.counts.refs.Keys
  {}

  lemma AddObjects<R>(form: Form, t: Table<R>, node: R, d: RuleData, state: int, now: int)
    requires Known(t) && node !in t.counts.refs
    ensures AddRule(form, t, Some(node), d, state, now).0.counts.refs.Keys == t.counts.refs.Keys + {node}
  {}

  // ---------------------------------------------------------------- the law of counts and the order

  /** The rules of the chain are known objects. */
  ghost predicate Known<R>(t: Table<R>) {
    forall r :: r in t.chain ==> r in t.data && r in t.counts.refs && r in t.state
  }

  lemma InvKnown<R>(t: Table<R>)
    requires Inv(t)
    ensures Known(t)
  {}

  /** What a section may follow: the chain leads only to rules still there. */
  ghost predicate Safe<R>(t: Table<R>) {
    forall r :: r in t.chain ==> r in t.counts.refs && r !in t.counts.freed
  }

  lemma InvSafe<R>(t: Table<R>)
    requires Inv(t)
    ensures Safe(t)
    ensures forall r :: r in t.held ==> r in t.counts.refs && r !in t.counts.freed
  {
    forall r | r in t.counts.refs && (r in t.chain || r in t.held)
      ensures r !in t.counts.freed
    {
      assert t.counts.refs[r] == Owners(t, r);
    }
  }

  lemma DescendingDistinct<R>(chain: seq<R>, data: map<R, RuleData>)
    requires Descending(chain, data)
    ensures Distinct(chain)
  {
    forall i, j | 0 <= i < j < |chain|
      ensures chain[i] != chain[j]
    {
      CompareSymmetric(data[chain[i]].key, data[chain[j]].key);
    }
  }

  /** The scan splits the chain into the greater rules, an equal one if there is one, and the smaller. */
  lemma PlaceSplits<R>(chain: seq<R>, data: map<R, RuleData>, key: Key)
    requires Descending(chain, data)
    ensures var i := Place(chain, data, key);
      && (forall j :: 0 <= j < i ==> Compare(data[chain[j]].key, key) > 0)
      && (forall j :: i < j < |chain| ==> Compare(key, data[chain[j]].key) > 0)
      && (HasKey(chain, data, key) <==> i < |chain| && Compare(key, data[chain[i]].key) == 0)
  {
    var i := Place(chain, data, key);
    forall j | 0 <= j < i
      ensures Compare(data[chain[j]].key, key) > 0
    {
      CompareSymmetric(key, data[chain[j]].key);
    }
    forall j | i < j < |chain|
      ensures Compare(key, data[chain[j]].key) > 0
    {
      CompareSymmetric(key, data[chain[i]].key);
      if Compare(key, data[chain[i]].key) > 0 {
        CompareTransitive(key, data[chain[i]].key, data[chain[j]].key);
      }
    }
    forall j | 0 <= j < |chain|
      ensures data[chain[j]].key == key <==> Compare(key, data[chain[j]].key) == 0
    {
      CompareSymmetric(key, data[chain[j]].key);
    }
  }

  lemma HeadsAgree<R>(a: seq<R>, b: seq<R>, data: map<R, RuleData>)
    requires Descending(a, data) && Descending(b, data)
    requires a != [] && b != [] && a[0] in b && b[0] in a
    ensures a[0] == b[0]
  {
    var i := IndexOf(a, b[0]);
    var j := IndexOf(b, a[0]);
    CompareSymmetric(data[a[0]].key, data[b[0]].key);
  }

  lemma TailMembers<R>(a: seq<R>)
    requires a != [] && Distinct(a)
    ensures forall r :: r in a[1..] <==> r in a && r != a[0]
  {}

  /** A descending chain is determined by its members: there is only one right place for every rule. */
  lemma {:induction false} DescendingUnique<R>(a: seq<R>, b: seq<R>, data: map<R, RuleData>)
    requires Descending(a, data) && Descending(b, data)
    requires forall r :: r in a <==> r in b
    ensures a == b
  {
    assert (a != [] ==> a[0] in a) && (b != [] ==> b[0] in b);
    if a != [] && b != [] {
      HeadsAgree(a, b, data);
      DescendingDistinct(a, data);
      DescendingDistinct(b, data);
      TailMembers(a);
      TailMembers(b);
      DescendingUnique(a[1..], b[1..], data);
    }
  }

  /** The new rule exists with the count of its creator and nobody else knows it. */
  ghost predicate Pending<R>(t: Table<R>, node: R) {
    && Shape(t) && t.counts.Good()
    && node in t.counts.refs && t.counts.refs[node] == 1
    && node !in t.chain && node !in t.orphans && node !in t.held && node !in t.cut
    && (forall r :: r in t.counts.refs && r != node ==> t.counts.refs[r] == Owners(t, r))
  }

  lemma CreatePending<R>(t: Table<R>, node: R, d: RuleData, state: int)
    requires Inv(t) && node !in t.counts.refs
    ensures Pending(Create(t, node, d, state), node)
  {
    TrackGood(t.counts, node, 1);
  }

  lemma LendInv<R>(t: Table<R>, r: R)
    requires Inv(t) && r in t.counts.refs && r !in t.counts.freed
    ensures Inv(Lend(t, r))
  {
    RetainGood(t.counts, r);
  }

  lemma DropInv<R>(t: Table<R>, r: R)
    requires Inv(t) && r in t.held
    ensures Inv(Drop(t, r))
  {
    ReleaseGood(t.counts, r);
  }

  /** An addition lends the caller the rule it answers. */
  lemma AddLends<R>(form: Form, t: Table<R>, node: R, d: RuleData, state: int, now: int)
    requires Known(t) && node !in t.counts.refs
    ensures var (u, _, rule) := AddRule(form, t, Some(node), d, state, now);
      rule.Some? && u.held == t.held + multiset{rule.value}
  {}

  /** A rule that was lent can be given back. */
  lemma GivenBack<R>(held: multiset<R>, u: Table<R>, rule: R)
    requires Inv(u) && u.held == held + multiset{rule}
    ensures rule in u.counts.refs && rule !in u.counts.freed
    ensures var after := Drop(u, rule);
      Inv(after) && after.held == held && after.counts.refs.Keys == u.counts.refs.Keys
  {
    InvSafe(u);
    DropInv(u, rule);
  }

  lemma AppendedDescending<R>(chain: seq<R>, node: R, data: map<R, RuleData>)
    requires Descending(chain, data) && node in data
    requires forall j :: 0 <= j < |chain| ==> Compare(data[chain[j]].key, data[node].key) > 0
    ensures Descending(chain + [node], data)
  {}

  lemma InsertedDescending<R>(chain: seq<R>, cut: set<R>, i: nat, node: R, data: map<R, RuleData>)
    requires Descending(chain, data) && node in data && i < |chain| && node !in chain
    requires forall j :: 0 <= j < i ==> Compare(data[chain[j]].key, data[node].key) > 0
    requires forall j :: i <= j < |chain| ==> Compare(data[node].key, data[chain[j]].key) > 0
    ensures Descending(InsertedBefore(chain, cut, i, node), data)
  {
    DescendingDistinct(chain, data);
    InsertedAt(chain, cut, i, node);
  }

  lemma InsertedMembers<R>(chain: seq<R>, cut: set<R>, i: nat, node: R)
    requires i < |chain| && Distinct(chain) && node !in chain
    ensures var s := InsertedBefore(chain, cut, i, node);
      && (forall r :: r in s <==> r == node || (r in chain && r !in Lost(chain, cut, i)))
      && s[0] == (if i > 0 && chain[i] !in cut then chain[0] else node)
  {
    assert chain == chain[..i] + chain[i..];
  }

  lemma LinkLastInv<R>(form: Form, t: Table<R>, node: R, now: int)
    requires Pending(t, node) && Place(t.chain, t.data, t.data[node].key) == |t.chain|
    ensures Inv(LinkLast(form, t, node, now))
  {
    PlaceSplits(t.chain, t.data, t.data[node].key);
    AppendedDescending(t.chain, node, t.data);
    var u := LinkLast(form, t, node, now);
    assert forall r :: r in u.chain <==> r in t.chain || r == node;
    assert Shape(u);
    assert forall r :: r in u.counts.refs ==> u.counts.refs[r] == Owners(u, r);
  }

  lemma LinkBeforeShape<R>(t: Table<R>, node: R, i: nat, now: int)
    requires Shape(t) && node in t.counts.refs && node !in t.chain && node !in t.cut && i < |t.chain|
    requires node !in t.orphans && Descending(InsertedBefore(t.chain, t.cut, i, node), t.data)
    ensures Shape(LinkBefore(t, node, i, now))
  {
    DescendingDistinct(t.chain, t.data);
    InsertedMembers(t.chain, t.cut, i, node);
  }

  lemma LinkBeforeInv<R>(t: Table<R>, node: R, now: int)
    requires Pending(t, node)
    requires var i := Place(t.chain, t.data, t.data[node].key);
      i < |t.chain| && Compare(t.data[node].key, t.data[t.chain[i]].key) > 0
    ensures Inv(LinkBefore(t, node, Place(t.chain, t.data, t.data[node].key), now))
  {
    var i := Place(t.chain, t.data, t.data[node].key);
    PlaceSplits(t.chain, t.data, t.data[node].key);
    DescendingDistinct(t.chain, t.data);
    InsertedDescending(t.chain, t.cut, i, node, t.data);
    LinkBeforeShape(t, node, i, now);
    var u := LinkBefore(t, node, i, now);
    forall r | r in u.counts.refs
      ensures u.counts.refs[r] == Owners(u, r)
    {
      LinkBeforeOwners(t, node, i, now, r);
    }
  }

  /** The new rule gains its owner, and the rules in front of a missing back link change theirs. */
  lemma LinkBeforeOwners<R>(t: Table<R>, node: R, i: nat, now: int, r: R)
    requires Pending(t, node) && i < |t.chain| && r in t.counts.refs && Distinct(t.chain)
    ensures var u := LinkBefore(t, node, i, now); u.counts == t.counts && u.counts.refs[r] == Owners(u, r)
  {
    InsertedMembers(t.chain, t.cut, i, node);
    if r != node {
      assert t.counts.refs[r] == Owners(t, r);
      assert r in Lost(t.chain, t.cut, i) ==> r in t.chain && r !in t.orphans;
    }
  }

  lemma LinkEqualInv<R>(t: Table<R>, node: R)
    requires Pending(t, node)
    ensures Inv(t.(counts := t.counts.Release(node)))
  {
    ReleaseGood(t.counts, node);
  }

  lemma UnlinkedMembers<R>(chain: seq<R>, cut: set<R>, i: nat)
    requires i < |chain| && Distinct(chain)
    ensures forall r :: r in Unlinked(chain, cut, i) <==> r in chain && r != chain[i] && r !in Lost(chain, cut, i)
  {
    if i > 0 && chain[i] in cut {
      assert chain == chain[..i] + [chain[i]] + chain[i + 1..];
    } else {
      RemoveAtMembers(chain, i);
      assert forall r :: r in RemoveAt(chain, i) <==> r in ToSet(RemoveAt(chain, i));
    }
  }

  lemma RemoveAtDescending<R>(chain: seq<R>, i: nat, data: map<R, RuleData>)
    requires Descending(chain, data) && i < |chain|
    ensures Descending(RemoveAt(chain, i), data) && Descending(chain[i + 1..], data)
  {
    assert forall a :: 0 <= a < |chain| - 1 ==> RemoveAt(chain, i)[a] == chain[if a < i then a else a + 1];
  }

  lemma UnlinkedDescending<R>(chain: seq<R>, cut: set<R>, i: nat, data: map<R, RuleData>)
    requires Descending(chain, data) && i < |chain|
    ensures Descending(Unlinked(chain, cut, i), data)
    ensures chain[0] !in cut && Unlinked(chain, cut, i) != [] ==> Unlinked(chain, cut, i)[0] !in Mended(chain, cut, i)
  {
    RemoveAtDescending(chain, i, data);
    var r := Unlinked(chain, cut, i);
    if r != [] {
      assert r[0] == if i == 0 || chain[i] in cut then chain[i + 1] else chain[0];
    }
  }

  lemma TakeOutInv<R>(t: Table<R>, i: nat)
    requires Inv(t) && i < |t.chain|
    ensures Inv(TakeOut(t, i))
  {
    DescendingDistinct(t.chain, t.data);
    UnlinkedMembers(t.chain, t.cut, i);
    UnlinkedDescending(t.chain, t.cut, i, t.data);
    var u := TakeOut(t, i);
    assert Shape(u);
    assert forall r :: r in u.counts.refs ==> u.counts.refs[r] == Owners(u, r);
  }

  /** An orphan's reference is given back after all. */
  lemma DisownInv<R>(t: Table<R>, r: R)
    requires Inv(t) && r in t.orphans
    ensures Inv(t.(counts := t.counts.Release(r), orphans := t.orphans - {r}))
  {
    assert t.counts.refs[r] == Owners(t, r);
    ReleaseGood(t.counts, r);
  }

  lemma MarkInv<R>(t: Table<R>, r: R, state: int, now: int)
    requires Inv(t) && r in t.state
    ensures Inv(t.(state := t.state[r := state], lastChanged := now))
  {
    var u := t.(state := t.state[r := state], lastChanged := now);
    assert forall a :: a in u.counts.refs ==> Owners(u, a) == Owners(t, a);
  }

  lemma FreeAllInv<R>(t: Table<R>)
    requires Inv(t)
    ensures Inv(FreeAll(t))
    ensures forall r :: r in t.counts.refs ==> FreeAll(t).counts.refs[r] == t.counts.refs[r] - Bit(r in t.chain)
  {
    DescendingDistinct(t.chain, t.data);
    DistinctCount(t.chain);
    ReleaseAllGood(t.counts, t.chain);
  }

  // ---------------------------------------------------------------- runs

  datatype Step<R> =
    | AddStep(node: Option<R>, d: RuleData, initial: int, now: int)
    | DeleteStep(id: UInt32, now: int)
    | ActivateStep(id: UInt32, now: int)
    | DeactivateStep(id: UInt32, now: int)
    | FindStep(q: Query)
    | DropStep(r: R)
    | FreeStep

  ghost predicate Enabled<R>(t: Table<R>, s: Step<R>) {
    match s
    case AddStep(node, _, _, _) => node.Some? ==> node.value !in t.counts.refs
    case DropStep(r) => r in t.held
    case _ => true
  }

  ghost function Apply<R>(form: Form, t: Table<R>, s: Step<R>): Table<R>
    requires Inv(t) && Enabled(t, s)
  {
    match s
    case AddStep(node, d, initial, now) => AddRule(form, t, node, d, initial, now).0
    case DeleteStep(id, now) => DeleteRule(form, t, id, now).0
    case ActivateStep(id, now) => ActivateRule(t, id, now).0
    case DeactivateStep(id, now) => DeactivateRule(form, t, id, now).0
    case FindStep(q) => FindRule(t, q).0
    case DropStep(r) => Drop(t, r)
    case FreeStep => FreeAll(t)
  }

  lemma AddInv<R>(form: Form, t: Table<R>, node: R, d: RuleData, state: int, now: int)
    requires Inv(t) && node !in t.counts.refs
    ensures Inv(AddRule(form, t, Some(node), d, state, now).0)
  {
    var u := Create(t, node, d, state);
    CreatePending(t, node, d, state);
    var i := Place(u.chain, u.data, d.key);
    if i == |u.chain| {
      LinkLastInv(form, u, node, now);
      LendInv(LinkLast(form, u, node, now), node);
    } else if Compare(d.key, u.data[u.chain[i]].key) == 0 {
      LinkEqualInv(u, node);
      var v := u.(counts := u.counts.Release(node));
      InvSafe(v);
      LendInv(v, u.chain[i]);
    } else {
      LinkBeforeInv(u, node, now);
      LendInv(LinkBefore(u, node, i, now), node);
    }
  }

  lemma DeleteInv<R>(form: Form, t: Table<R>, id: UInt32, now: int)
    requires Inv(t)
    ensures Inv(DeleteRule(form, t, id, now).0)
  {
    var i := FirstWithId(t.chain, t.data, id);
    if i < |t.chain| {
      var r := t.chain[i];
      MarkInv(t, r, RULE_STATE_DELETED, now);
      var u := t.(state := t.state[r := RULE_STATE_DELETED], lastChanged := now);
      TakeOutInv(u, i);
      DisownInv(TakeOut(u, i), r);
    }
  }

  lemma SwitchInv<R>(t: Table<R>, id: UInt32, from: int, to: int, now: int)
    requires Inv(t)
    ensures Inv(Switch(t, id, from, to, now).0)
  {
    var i := FirstWithId(t.chain, t.data, id);
    if i < |t.chain| {
      MarkInv(t, t.chain[i], to, now);
    }
  }

  lemma FindInv<R>(t: Table<R>, q: Query)
    requires Inv(t)
    ensures Inv(FindRule(t, q).0)
  {
    InvSafe(t);
    var i := FirstMatch(t.chain, t.data, q);
    if i < |t.chain| { LendInv(t, t.chain[i]); }
  }

  lemma StepInv<R>(form: Form, t: Table<R>, s: Step<R>)
    requires Inv(t) && Enabled(t, s)
    ensures Inv(Apply(form, t, s))
  {
    match s
    case AddStep(node, d, initial, now) => if node.Some? { AddInv(form, t, node.value, d, initial, now); }
    case DeleteStep(id, now) => DeleteInv(form, t, id, now);
    case ActivateStep(id, now) => SwitchInv(t, id, RULE_STATE_INACTIVE, RULE_STATE_ACTIVE, now);
    case DeactivateStep(id, now) =>
      SwitchInv(t, id, RULE_STATE_INACTIVE, RULE_STATE_ACTIVE, now);
      SwitchInv(t, id, RULE_STATE_ACTIVE, RULE_STATE_INACTIVE, now);
    case FindStep(q) => FindInv(t, q);
    case DropStep(r) => DropInv(t, r);
    case FreeStep => FreeAllInv(t);
  }

  ghost predicate ValidRun<R>(form: Form, t: Table<R>, steps: seq<Step<R>>)
    requires Inv(t)
    decreases |steps|
  {
    steps == [] ||
    (Enabled(t, steps[0]) && (StepInv(form, t, steps[0]); ValidRun(form, Apply(form, t, steps[0]), steps[1..])))
  }

  ghost function Run<R>(form: Form, t: Table<R>, steps: seq<Step<R>>): (u: Table<R>)
    requires Inv(t) && ValidRun(form, t, steps)
    ensures Inv(u)
    decreases |steps|
  {
    if steps == [] then t
    else
      StepInv(form, t, steps[0]);
      Run(form, Apply(form, t, steps[0]), steps[1..])
  }

  /** Over every run of either form: the chain is strictly descending without equal keys, each rule's count is
      the table's reference, kept or forgotten, plus the callers' references, and each rule is deleted exactly
      once, exactly when nobody owns it any more. */
  lemma EveryRunOrdersAndCounts<R>(form: Form, steps: seq<Step<R>>)
    requires ValidRun(form, Empty<R>(), steps)
    ensures var t := Run(form, Empty<R>(), steps);
      && Descending(t.chain, t.data) && Distinct(t.chain)
      && (forall r :: r in t.counts.refs ==> t.counts.refs[r] == Bit(r in t.chain) + Bit(r in t.orphans) + t.held[r])
      && Distinct(t.counts.freed)
      && (forall r :: r in t.counts.refs ==>
            (r in t.counts.freed <==> r !in t.chain && r !in t.orphans && r !in t.held))
  {
    var t := Run(form, Empty<R>(), steps);
    DescendingDistinct(t.chain, t.data);
    forall r | r in t.counts.refs
      ensures r in t.counts.freed <==> r !in t.chain && r !in t.orphans && r !in t.held
    {
      assert t.counts.refs[r] == Owners(t, r);
    }
  }

  /** Corrected, no back link is ever missing and the table forgets no reference. */
  lemma {:induction false} CorrectedRunClean<R>(t: Table<R>, steps: seq<Step<R>>)
    requires Inv(t) && t.cut == {} && t.orphans == {}
    requires ValidRun(Corrected, t, steps)
    ensures Run(Corrected, t, steps).cut == {} && Run(Corrected, t, steps).orphans == {}
    decreases |steps|
  {
    if steps != [] {
      StepInv(Corrected, t, steps[0]);
      CorrectedStepClean(t, steps[0]);
      CorrectedRunClean(Apply(Corrected, t, steps[0]), steps[1..]);
    }
  }

  lemma CorrectedStepClean<R>(t: Table<R>, s: Step<R>)
    requires Inv(t) && Enabled(t, s) && t.cut == {} && t.orphans == {}
    ensures Apply(Corrected, t, s).cut == {} && Apply(Corrected, t, s).orphans == {}
  {
    InvKnown(t);
    match s
    case AddStep(node, d, initial, now) =>
      if node.Some? { LinkClean(Create(t, node.value, d, initial), node.value, now); }
    case DeleteStep(id, now) => DeleteClean(t, id, now);
    case ActivateStep(id, now) => SwitchClean(t, id, RULE_STATE_INACTIVE, RULE_STATE_ACTIVE, now);
    case DeactivateStep(id, now) => SwitchClean(t, id, RULE_STATE_ACTIVE, RULE_STATE_INACTIVE, now);
    case FindStep(q) => FindClean(t, q);
    case DropStep(r) =>
    case FreeStep =>
  }

  lemma SwitchClean<R>(t: Table<R>, id: UInt32, from: int, to: int, now: int)
    requires Known(t)
    ensures var u := Switch(t, id, from, to, now).0; u.cut == t.cut && u.orphans == t.orphans
  {}

  lemma FindClean<R>(t: Table<R>, q: Query)
    requires Known(t)
    ensures var u := FindRule(t, q).0; u.cut == t.cut && u.orphans == t.orphans
  {}

  lemma LinkClean<R>(t: Table<R>, node: R, now: int)
    requires Known(t) && node in t.data && node in t.counts.refs && t.cut == {} && t.orphans == {}
    ensures var u := Link(Corrected, t, node, now).0; u.cut == {} && u.orphans == {}
  {}

  lemma DeleteClean<R>(t: Table<R>, id: UInt32, now: int)
    requires Known(t) && t.cut == {} && t.orphans == {}
    ensures var u := DeleteRule(Corrected, t, id, now).0; u.cut == {} && u.orphans == {}
  {}
}
