/** The process table as a state machine (Kext/application.cpp, Kext/application.h).
    Every lock-protected section is one step: an exec notification, a lookup, the release by a
    socket cookie, one tick of the background sweep, and the stages of the shutdown. */
module ProcessTable {
  import opened Common
  import opened References

  type Pid = int

  /** `listed` is the linked list, newest first.  `history` is every application ever listed, newest
      first.  `held` are the references outside the table, one occurrence per cookie or outstanding
      lookup.  `cursor` is the local variable `checked` of the sweep thread, which survives from one
      critical section to the next; after the thread exits it is the value the variable had. */
  datatype Table<A> = Table(
    listed: seq<A>,
    history: seq<A>,
    pids: map<A, Pid>,
    counts: Counts<A>,
    held: multiset<A>,
    cursor: Option<A>,
    sweeping: bool,
    closing: bool,
    toCheck: int)

  function Owners<A(==)>(t: Table<A>, a: A): int {
    Bit(a in t.listed) + Bit(t.cursor == Some(a)) + t.held[a]
  }

  /** The list is what is left of the history, and everything refers to known applications. */
  ghost predicate Shape<A>(t: Table<A>) {
    && Distinct(t.history)
    && Subsequence(t.listed, t.history)
    && (forall a :: a in t.listed ==> a in t.counts.refs)
    && (forall a :: a in t.history ==> a in t.pids && a in t.counts.refs)
    && (forall a :: a in t.counts.refs ==> a in t.history)
    && (t.cursor.Some? ==> t.cursor.value in t.counts.refs)
    && (t.sweeping && t.cursor.Some? ==> t.cursor.value in t.listed)
    && (forall a :: a in t.held ==> a in t.counts.refs)
    && t.toCheck >= 0
  }

  /** Every count is the number of owners. */
  ghost predicate Law<A>(t: Table<A>) {
    && t.counts.Good()
    && (forall a :: a in t.counts.refs ==> t.counts.refs[a] == Owners(t, a))
  }

  ghost predicate Inv<A>(t: Table<A>) {
    Shape(t) && Law(t)
  }

  function Empty<A>(): (t: Table<A>)
    ensures Inv(t)
  {
    Table([], [], map[], Counts(map[], []), multiset{}, None, true, false, 0)
  }

  // ---------------------------------------------------------------- operations

  /** `Applications::Add`: the new application gets the table's reference and becomes the head. */
  function Add<A>(t: Table<A>, pid: Pid, a: A): Table<A>
    requires a !in t.counts.refs
  {
    t.(listed := [a] + t.listed, history := [a] + t.history, pids := t.pids[a := pid],
       counts := t.counts.Track(a, 1), toCheck := t.toCheck + 1)
  }

  /** `AddLocked`: the exec callback.  `node` is None when the allocation fails. */
  function ExecNotice<A>(t: Table<A>, pid: Pid, node: Option<A>): Table<A>
    requires node.Some? ==> node.value !in t.counts.refs
  {
    if t.closing || node.None? then t else Add(t, pid, node.value)
  }

  /** The scan of `Get`: the first entry with the pid. */
  function Lookup<A>(s: seq<A>, pids: map<A, Pid>, pid: Pid): (r: Option<A>)
    requires forall a :: a in s ==> a in pids
    ensures r.Some? ==> r.value in s && pids[r.value] == pid
  {
    if s == [] then None
    else if pids[s[0]] == pid then Some(s[0])
    else Lookup(s[1..], pids, pid)
  }

  function Hold<A>(t: Table<A>, a: A): Table<A>
    requires a in t.counts.refs
  {
    t.(counts := t.counts.Retain(a), held := t.held + multiset{a})
  }

  /** `Get`.  `passed` tells whether the test of `closing` before the lock saw 0; `Add` tests it again
      under the lock, so a lookup that raced with the shutdown can still find an entry. */
  function Get<A>(t: Table<A>, passed: bool, pid: Pid, node: Option<A>): (Table<A>, Option<A>)
    requires forall a :: a in t.listed ==> a in t.pids && a in t.counts.refs
    requires node.Some? ==> node.value !in t.counts.refs
  {
    if !passed then (t, None)
    else
      match Lookup(t.listed, t.pids, pid)
      case Some(a) => (Hold(t, a), Some(a))
      case None =>
        if t.closing || node.None? then (t, None)
        else (Hold(Add(t, pid, node.value), node.value), node)
  }

  /** A holder gives its reference back (`SocketCookie::Free`). */
  function Drop<A>(t: Table<A>, a: A): Table<A>
    requires a in t.counts.refs
  {
    t.(counts := t.counts.Release(a), held := t.held - multiset{a})
  }

  /** The entry the sweep looks at next. */
  function Next<A(==)>(listed: seq<A>, cursor: Option<A>): (r: Option<A>)
    ensures r.Some? ==> r.value in listed
  {
    match cursor
    case None => if listed == [] then None else Some(listed[0])
    case Some(a) =>
      var i := IndexOf(listed, a) + 1;
      if i < |listed| then Some(listed[i]) else None
  }

  /** The cursor lets go of its entry. */
  function Leave<A>(t: Table<A>): Table<A>
    requires t.cursor.Some? ==> t.cursor.value in t.counts.refs
  {
    if t.cursor.None? then t
    else t.(cursor := None, counts := t.counts.Release(t.cursor.value))
  }

  /** The cursor moves to a listed entry whose process is alive and keeps it for the next tick. */
  function Visit<A>(t: Table<A>, a: A): Table<A>
    requires a in t.counts.refs
  {
    t.(cursor := Some(a), counts := t.counts.Retain(a))
  }

  /** The sweep takes the i-th entry, whose process is gone, out of the list. */
  function Unlist<A>(t: Table<A>, i: nat): Table<A>
    requires i < |t.listed| && t.listed[i] in t.counts.refs
  {
    t.(listed := RemoveAt(t.listed, i), counts := t.counts.Release(t.listed[i]), toCheck := t.toCheck + 1)
  }

  /** One critical section of the sweep; `live` are the pids that `proc_find` finds. */
  function Tick<A(==)>(t: Table<A>, live: set<Pid>): Table<A>
    requires t.cursor.Some? ==> t.cursor.value in t.counts.refs
    requires forall a :: a in t.listed ==> a in t.pids && a in t.counts.refs
  {
    var next := Next(t.listed, t.cursor);
    var u := Leave(t).(toCheck := if t.toCheck > 0 then t.toCheck - 1 else t.toCheck);
    match next
    case None => u
    case Some(b) =>
      if t.pids[b] in live then Visit(u, b)
      else Unlist(u, IndexOf(t.listed, b))
  }

  /** The sweep thread leaves its loop.
      As written it keeps the reference its cursor owns (Kext/application.cpp:289-297); corrected, it
      releases it. */
  function Exit<A>(form: Form, t: Table<A>): Table<A>
    requires t.cursor.Some? ==> t.cursor.value in t.counts.refs
  {
    (if form == Corrected then Leave(t) else t).(sweeping := false)
  }

  /** The drain loop of `Applications::Free`. */
  function Drain<A>(t: Table<A>): Table<A>
    requires forall a :: a in t.listed ==> a in t.counts.refs
  {
    t.(listed := [], counts := ReleaseAll(t.counts, t.listed))
  }

  /** What a critical section may follow: the list and the cursor lead only to objects still there. */
  ghost predicate Safe<A>(t: Table<A>) {
    && (forall a :: a in t.listed ==> a in t.counts.refs && a !in t.counts.freed)
    && (t.cursor.Some? ==> t.cursor.value in t.counts.refs && t.cursor.value !in t.counts.freed)
    && (t.sweeping && t.cursor.Some? ==> t.cursor.value in t.listed)
  }

  lemma InvSafe<A>(t: Table<A>)
    requires Inv(t)
    ensures Safe(t)
    ensures forall a :: a in t.held ==> a in t.counts.refs && a !in t.counts.freed
  {
    forall a | a in t.counts.refs && (a in t.listed || t.cursor == Some(a) || a in t.held)
      ensures a !in t.counts.freed
    {
      assert t.counts.refs[a] == Owners(t, a);
    }
  }

  /** How far into the list the cursor is: the number of entries already visited in this pass. */
  ghost function Position<A>(t: Table<A>): nat {
    if t.cursor.None? then 0 else IndexOf(t.listed, t.cursor.value) + 1
  }

  lemma CursorPosition<A>(t: Table<A>)
    requires Distinct(t.listed) && (t.cursor.Some? ==> t.cursor.value in t.listed)
    ensures Position(t) <= |t.listed|
    ensures Next(t.listed, t.cursor) == if Position(t) < |t.listed| then Some(t.listed[Position(t)]) else None
    ensures Position(t) < |t.listed| ==>
      IndexOf(t.listed, t.listed[Position(t)]) == Position(t) && t.cursor != Some(t.listed[Position(t)])
  {}

  /** Letting go of the cursor's entry deletes no other listed one. */
  lemma LeaveFrees<A>(t: Table<A>, b: A)
    requires Safe(t) && b in t.listed && t.cursor != Some(b)
    ensures b !in Leave(t).counts.freed
  {}

  /** A tick is: release the entry under the cursor, count down, then judge the next entry. */
  lemma TickBySteps<A>(t: Table<A>, live: set<Pid>)
    requires Safe(t) && t.sweeping && Distinct(t.listed) && (forall a :: a in t.listed ==> a in t.pids)
    ensures var p := Position(t);
      var u := Leave(t).(toCheck := if t.toCheck > 0 then t.toCheck - 1 else t.toCheck);
      && p <= |t.listed|
      && Next(t.listed, t.cursor) == (if p < |t.listed| then Some(t.listed[p]) else None)
      && (p < |t.listed| ==> t.listed[p] !in u.counts.freed)
      && Tick(t, live) == if p == |t.listed| then u
                          else if t.pids[t.listed[p]] in live then Visit(u, t.listed[p])
                          else Unlist(u, p)
  {
    CursorPosition(t);
    if Position(t) < |t.listed| { LeaveFrees(t, t.listed[Position(t)]); }
  }

  // ---------------------------------------------------------------- runs

  datatype Step<A> =
    | ExecStep(pid: Pid, node: Option<A>)
    | GetStep(passed: bool, pid: Pid, node: Option<A>)
    | DropStep(a: A)
    | TickStep(live: set<Pid>)
    | CloseStep
    | ExitStep
    | DrainStep

  /** The sweep leaves its loop only once `closing` is set, and `Free` drains the list only after it
      could take the lock the sweep thread holds for its whole life. */
  ghost predicate Enabled<A>(t: Table<A>, s: Step<A>) {
    match s
    case ExecStep(_, node) => node.Some? ==> node.value !in t.history
    case GetStep(passed, _, node) => (passed || t.closing) && (node.Some? ==> node.value !in t.history)
    case DropStep(a) => a in t.held
    case TickStep(_) => t.sweeping
    case CloseStep => true
    case ExitStep => t.sweeping && t.closing
    case DrainStep => t.closing && !t.sweeping
  }

  ghost function Apply<A>(form: Form, t: Table<A>, s: Step<A>): Table<A>
    requires Inv(t) && Enabled(t, s)
  {
    match s
    case ExecStep(pid, node) => ExecNotice(t, pid, node)
    case GetStep(passed, pid, node) => Get(t, passed, pid, node).0
    case DropStep(a) => Drop(t, a)
    case TickStep(live) => Tick(t, live)
    case CloseStep => t.(closing := true)
    case ExitStep => Exit(form, t)
    case DrainStep => Drain(t)
  }

  lemma AddInv<A>(t: Table<A>, pid: Pid, a: A)
    requires Inv(t) && a !in t.history
    ensures Inv(Add(t, pid, a))
  {
    TrackGood(t.counts, a, 1);
    assert a !in t.held;
  }

  lemma HoldInv<A>(t: Table<A>, a: A)
    requires Inv(t) && a in t.counts.refs && a !in t.counts.freed
    ensures Inv(Hold(t, a))
  {
    RetainGood(t.counts, a);
  }

  lemma DropInv<A>(t: Table<A>, a: A)
    requires Inv(t) && a in t.held
    ensures Inv(Drop(t, a))
  {
    ReleaseGood(t.counts, a);
  }

  lemma GetInv<A>(t: Table<A>, passed: bool, pid: Pid, node: Option<A>)
    requires Inv(t) && (node.Some? ==> node.value !in t.history)
    ensures Inv(Get(t, passed, pid, node).0)
  {
    match Lookup(t.listed, t.pids, pid)
    case Some(a) => HoldInv(t, a);
    case None =>
      if !t.closing && node.Some? {
        AddInv(t, pid, node.value);
        HoldInv(Add(t, pid, node.value), node.value);
      }
  }

  lemma LeaveInv<A>(t: Table<A>)
    requires Inv(t)
    ensures Inv(Leave(t))
  {
    if t.cursor.Some? {
      ReleaseGood(t.counts, t.cursor.value);
    }
  }

  lemma UnlistInv<A>(t: Table<A>, i: nat)
    requires Inv(t) && i < |t.listed| && t.cursor.None?
    ensures Inv(Unlist(t, i))
  {
    SubsequenceMembers(t.listed, t.history);
    SubsequenceRemove(t.listed, t.history, i);
    RemoveAtMembers(t.listed, i);
    ReleaseGood(t.counts, t.listed[i]);
    var u := Unlist(t, i);
    forall a | a in u.counts.refs
      ensures u.counts.refs[a] == Owners(u, a)
    {
      assert a in u.listed <==> a in ToSet(u.listed);
    }
  }

  lemma VisitInv<A>(t: Table<A>, a: A)
    requires Inv(t) && a in t.listed && t.cursor.None?
    ensures Inv(Visit(t, a))
  {
    RetainGood(t.counts, a);
  }

  lemma TickHeld<A>(t: Table<A>, live: set<Pid>)
    requires t.cursor.Some? ==> t.cursor.value in t.counts.refs
    requires forall a :: a in t.listed ==> a in t.pids && a in t.counts.refs
    ensures Tick(t, live).held == t.held
  {}

  lemma TodoInv<A>(t: Table<A>, n: int)
    requires Inv(t) && n >= 0
    ensures Inv(t.(toCheck := n))
  {
    var u := t.(toCheck := n);
    forall a | a in u.counts.refs
      ensures u.counts.refs[a] == Owners(u, a)
    {
      assert Owners(u, a) == Owners(t, a);
    }
  }

  lemma TickInv<A>(t: Table<A>, live: set<Pid>)
    requires Inv(t) && t.sweeping
    ensures Inv(Tick(t, live))
  {
    LeaveInv(t);
    TodoInv(Leave(t), if t.toCheck > 0 then t.toCheck - 1 else t.toCheck);
    var u := Leave(t).(toCheck := if t.toCheck > 0 then t.toCheck - 1 else t.toCheck);
    match Next(t.listed, t.cursor)
    case None =>
      assert Tick(t, live) == u;
    case Some(b) =>
      if t.pids[b] in live {
        VisitInv(u, b);
        assert Tick(t, live) == Visit(u, b);
      } else {
        UnlistInv(u, IndexOf(t.listed, b));
        assert Tick(t, live) == Unlist(u, IndexOf(t.listed, b));
      }
  }

  lemma DrainInv<A>(t: Table<A>)
    requires Inv(t) && !t.sweeping
    ensures Inv(Drain(t))
  {
    SubsequenceMembers(t.listed, t.history);
    DistinctCount(t.listed);
    ReleaseAllGood(t.counts, t.listed);
  }

  lemma CloseInv<A>(t: Table<A>)
    requires Inv(t)
    ensures Inv(t.(closing := true))
  {
    var u := t.(closing := true);
    assert forall a :: a in u.counts.refs ==> Owners(u, a) == Owners(t, a);
  }

  lemma ExitInv<A>(form: Form, t: Table<A>)
    requires Inv(t)
    ensures Inv(Exit(form, t))
  {
    LeaveInv(t);
    SleepInv(if form == Corrected then Leave(t) else t);
  }

  /** The end of the sweep moves no reference. */
  lemma SleepInv<A>(t: Table<A>)
    requires Inv(t)
    ensures Inv(t.(sweeping := false))
  {
    assert forall a :: a in t.counts.refs ==> Owners(t.(sweeping := false), a) == Owners(t, a);
  }

  lemma ExecInv<A>(t: Table<A>, pid: Pid, node: Option<A>)
    requires Inv(t) && (node.Some? ==> node.value !in t.history)
    ensures Inv(ExecNotice(t, pid, node))
  {
    if !t.closing && node.Some? { AddInv(t, pid, node.value); }
  }

  lemma StepInv<A>(form: Form, t: Table<A>, s: Step<A>)
    requires Inv(t) && Enabled(t, s)
    ensures Inv(Apply(form, t, s))
  {
    match s
    case ExecStep(pid, node) => ExecInv(t, pid, node);
    case GetStep(passed, pid, node) => GetInv(t, passed, pid, node);
    case DropStep(a) => DropInv(t, a);
    case TickStep(live) => TickInv(t, live);
    case CloseStep => CloseInv(t);
    case ExitStep => ExitInv(form, t);
    case DrainStep => DrainInv(t);
  }

  /** The steps can be taken one after the other from `t`. */
  ghost predicate ValidRun<A>(form: Form, t: Table<A>, steps: seq<Step<A>>)
    requires Inv(t)
    decreases |steps|
  {
    steps == [] ||
    (Enabled(t, steps[0]) && (StepInv(form, t, steps[0]); ValidRun(form, Apply(form, t, steps[0]), steps[1..])))
  }

  ghost function Run<A>(form: Form, t: Table<A>, steps: seq<Step<A>>): (u: Table<A>)
    requires Inv(t) && ValidRun(form, t, steps)
    ensures Inv(u)
    decreases |steps|
  {
    if steps == [] then t
    else
      StepInv(form, t, steps[0]);
      Run(form, Apply(form, t, steps[0]), steps[1..])
  }

  /** Every interleaving of exec notices, lookups, releases, sweep ticks and shutdown stages: the count
      of each application is the number of its owners, it is deleted exactly once and exactly when the
      last owner is gone, nothing deleted can still be reached, and while the sweep runs its cursor is
      null or on a listed entry. */
  lemma EveryRunCountsOwners<A>(form: Form, steps: seq<Step<A>>)
    requires ValidRun(form, Empty<A>(), steps)
    ensures var t := Run(form, Empty<A>(), steps);
      && (forall a :: a in t.history ==> t.counts.refs[a] == Bit(a in t.listed) + Bit(t.cursor == Some(a)) + t.held[a])
      && Distinct(t.counts.freed)
      && (forall a :: a in t.history ==>
            (a in t.counts.freed <==> a !in t.listed && t.cursor != Some(a) && a !in t.held))
      && (t.sweeping && t.cursor.Some? ==> t.cursor.value in t.listed)
  {
    var t := Run(form, Empty<A>(), steps);
    forall a | a in t.history
      ensures a in t.counts.freed <==> a !in t.listed && t.cursor != Some(a) && a !in t.held
    {
      assert t.counts.refs[a] == Owners(t, a);
    }
  }

  // ---------------------------------------------------------------- lookup

  lemma {:induction false} LookupFirst<A>(s: seq<A>, pids: map<A, Pid>, pid: Pid)
    requires forall a :: a in s ==> a in pids
    ensures Lookup(s, pids, pid).None? ==> forall a :: a in s ==> pids[a] != pid
    ensures Lookup(s, pids, pid).Some? ==>
      forall j :: 0 <= j < IndexOf(s, Lookup(s, pids, pid).value) ==> pids[s[j]] != pid
  {
    if s != [] && pids[s[0]] != pid {
      LookupFirst(s[1..], pids, pid);
    }
  }

  /** No entry of the pid that was added after `a` is still listed. */
  ghost predicate Newest<A>(t: Table<A>, pid: Pid, a: A)
    requires forall b :: b in t.history ==> b in t.pids
  {
    forall i, j :: 0 <= i < j < |t.history| && t.history[j] == a && t.pids[t.history[i]] == pid
      ==> t.history[i] !in t.listed
  }

  lemma LookupNewest<A>(t: Table<A>, pid: Pid)
    requires Inv(t) && Lookup(t.listed, t.pids, pid).Some?
    ensures Newest(t, pid, Lookup(t.listed, t.pids, pid).value)
  {
    LookupFirst(t.listed, t.pids, pid);
    var a := Lookup(t.listed, t.pids, pid).value;
    forall i, j | 0 <= i < j < |t.history| && t.history[j] == a && t.pids[t.history[i]] == pid
      ensures t.history[i] !in t.listed
    {
      if t.history[i] in t.listed {
        SubsequenceOrder(t.listed, t.history, i, j);
      }
    }
  }

  /** In every reachable state a `Get` that passes the first test answers the newest entry of the pid that the sweep
      has not taken out, and the caller holds one more reference on it.  An entry is made exactly when none of the pid
      is listed; the answer is empty only if that is impossible, and then nothing has changed. */
  lemma GetNewest<A>(t: Table<A>, pid: Pid, node: Option<A>)
    requires Inv(t) && (node.Some? ==> node.value !in t.history)
    ensures var (u, found) := Get(t, true, pid, node);
      && Inv(u)
      && match found
         case None => u == t && (t.closing || node.None?) && (forall b :: b in t.listed ==> t.pids[b] != pid)
         case Some(a) =>
           && a in u.listed && u.pids[a] == pid && Newest(u, pid, a)
           && u.held == t.held + multiset{a}
           && (a in t.listed ==> u.listed == t.listed && u.counts.refs[a] == t.counts.refs[a] + 1)
           && (a !in t.listed ==> node == found && u.listed == [a] + t.listed && u.counts.refs[a] == 2
                                  && forall b :: b in t.listed ==> t.pids[b] != pid)
  {
    GetInv(t, true, pid, node);
    LookupFirst(t.listed, t.pids, pid);
    if Lookup(t.listed, t.pids, pid).Some? {
      LookupNewest(t, pid);
    }
  }

  // ---------------------------------------------------------------- exec notices

  /** An exec notice, unless it is too late or there is no memory, puts a new entry with the table's reference in front
      of all others, of the same pid too, and changes nothing else. */
  lemma ExecAdds<A>(t: Table<A>, pid: Pid, a: A)
    requires Inv(t) && a !in t.history && !t.closing
    ensures var u := ExecNotice(t, pid, Some(a));
      && u.listed == [a] + t.listed && u.history == [a] + t.history && u.pids == t.pids[a := pid]
      && u.counts.refs == t.counts.refs[a := 1] && u.counts.freed == t.counts.freed
      && u.held == t.held && u.cursor == t.cursor && u.sweeping == t.sweeping && u.closing == t.closing
      && u.toCheck == t.toCheck + 1
  {}

  lemma ExecIgnored<A>(t: Table<A>, pid: Pid, node: Option<A>)
    requires Inv(t) && (node.Some? ==> node.value !in t.history) && (t.closing || node.None?)
    ensures ExecNotice(t, pid, node) == t
  {}

  /** If the entry is still listed, nothing of its pid that came later is. */
  ghost predicate Shadows<A>(t: Table<A>, pid: Pid, a: A) {
    && a in t.history && (forall b :: b in t.history ==> b in t.pids) && t.pids[a] == pid
    && (a in t.listed ==> Newest(t, pid, a))
  }

  lemma ShadowsFewer<A>(t: Table<A>, u: Table<A>, pid: Pid, a: A)
    requires Shadows(t, pid, a) && u.history == t.history && u.pids == t.pids
    requires forall x :: x in u.listed ==> x in t.listed
    ensures Shadows(u, pid, a)
  {}

  /** A new entry takes the place of the older ones only for its own pid. */
  lemma ShadowsMore<A>(t: Table<A>, p: Pid, x: A, pid: Pid, a: A)
    requires Inv(t) && Shadows(t, pid, a) && x !in t.history && (p == pid ==> a !in t.listed)
    ensures Shadows(Add(t, p, x), pid, a)
  {
    var u := Add(t, p, x);
    forall i, j | a in u.listed && 0 <= i < j < |u.history| && u.history[j] == a && u.pids[u.history[i]] == pid
      ensures u.history[i] !in u.listed
    {
      assert u.history[j] == t.history[j - 1];
      if i > 0 { assert u.history[i] == t.history[i - 1]; }
    }
  }

  lemma GetShadows<A>(t: Table<A>, passed: bool, p: Pid, node: Option<A>, pid: Pid, a: A)
    requires Inv(t) && (node.Some? ==> node.value !in t.history) && Shadows(t, pid, a)
    ensures Shadows(Get(t, passed, p, node).0, pid, a)
  {
    LookupFirst(t.listed, t.pids, p);
    var u := Get(t, passed, p, node).0;
    if passed && Lookup(t.listed, t.pids, p).None? && !t.closing && node.Some? {
      ShadowsMore(t, p, node.value, pid, a);
      ShadowsFewer(Add(t, p, node.value), u, pid, a);
    } else {
      ShadowsFewer(t, u, pid, a);
    }
  }

  /** A tick makes no entry. */
  lemma TickOnlyRemoves<A>(t: Table<A>, live: set<Pid>)
    requires Inv(t) && t.sweeping
    ensures var u := Tick(t, live);
      && u.history == t.history && u.pids == t.pids && u.closing == t.closing
      && (forall x :: x in u.listed ==> x in t.listed)
  {
    TickMoves(t, live);
  }

  /** No step but an exec of the same pid makes a younger entry of it. */
  lemma StepShadows<A>(form: Form, t: Table<A>, s: Step<A>, pid: Pid, a: A)
    requires Inv(t) && Enabled(t, s) && Shadows(t, pid, a) && !(s.ExecStep? && s.pid == pid && s.node.Some?)
    ensures Shadows(Apply(form, t, s), pid, a)
  {
    match s
    case ExecStep(p, node) => if !t.closing && node.Some? { ShadowsMore(t, p, node.value, pid, a); }
    case GetStep(passed, p, node) => GetShadows(t, passed, p, node, pid, a);
    case TickStep(live) =>
      TickOnlyRemoves(t, live);
      ShadowsFewer(t, Tick(t, live), pid, a);
    case DropStep(b) => ShadowsFewer(t, Drop(t, b), pid, a);
    case CloseStep => ShadowsFewer(t, t.(closing := true), pid, a);
    case ExitStep => ShadowsFewer(t, Exit(form, t), pid, a);
    case DrainStep => ShadowsFewer(t, Drain(t), pid, a);
  }

  lemma {:induction false} RunShadows<A>(form: Form, t: Table<A>, steps: seq<Step<A>>, pid: Pid, a: A)
    requires Inv(t) && ValidRun(form, t, steps) && Shadows(t, pid, a)
    requires forall s :: s in steps ==> !(s.ExecStep? && s.pid == pid && s.node.Some?)
    ensures Shadows(Run(form, t, steps), pid, a)
    decreases |steps|
  {
    if steps != [] {
      assert steps[0] in steps;
      StepInv(form, t, steps[0]);
      StepShadows(form, t, steps[0], pid, a);
      RunShadows(form, Apply(form, t, steps[0]), steps[1..], pid, a);
    }
  }

  /** The newest entry of a pid is what a lookup answers. */
  lemma NewestFound<A>(t: Table<A>, pid: Pid, a: A, node: Option<A>)
    requires Inv(t) && a in t.listed && Shadows(t, pid, a) && (node.Some? ==> node.value !in t.history)
    ensures Get(t, true, pid, node).1 == Some(a)
  {
    LookupFirst(t.listed, t.pids, pid);
    LookupNewest(t, pid);
    SubsequenceMembers(t.listed, t.history);
    var b := Lookup(t.listed, t.pids, pid).value;
    var i, j := IndexOf(t.history, a), IndexOf(t.history, b);
    assert t.history[i] == a && t.history[j] == b;
  }

  /** An exec shadows the older image of its process: until the entry is taken out again or another exec of the pid
      comes, every lookup of the pid, over any run, answers the entry the exec made. */
  lemma ExecShadows<A>(form: Form, t: Table<A>, pid: Pid, a: A, steps: seq<Step<A>>, node: Option<A>)
    requires Inv(t) && a !in t.history && !t.closing
    requires Inv(ExecNotice(t, pid, Some(a))) && ValidRun(form, ExecNotice(t, pid, Some(a)), steps)
    requires forall s :: s in steps ==> !(s.ExecStep? && s.pid == pid && s.node.Some?)
    requires node.Some? ==> node.value !in Run(form, ExecNotice(t, pid, Some(a)), steps).history
    ensures var u := Run(form, ExecNotice(t, pid, Some(a)), steps);
      a in u.listed ==> Get(u, true, pid, node).1 == Some(a)
  {
    var v := ExecNotice(t, pid, Some(a));
    ExecAdds(t, pid, a);
    assert Shadows(v, pid, a);
    RunShadows(form, v, steps, pid, a);
    var u := Run(form, v, steps);
    if a in u.listed { NewestFound(u, pid, a, node); }
  }

  lemma StepClosed<A>(form: Form, t: Table<A>, s: Step<A>)
    requires Inv(t) && t.closing && Enabled(t, s)
    ensures Apply(form, t, s).closing && Apply(form, t, s).history == t.history
  {
    if s.TickStep? { TickOnlyRemoves(t, s.live); }
  }

  /** Once the shutdown has begun no entry is ever made again, whatever raced with it. */
  lemma {:induction false} ClosedNeverGrows<A>(form: Form, t: Table<A>, steps: seq<Step<A>>)
    requires Inv(t) && ValidRun(form, t, steps) && steps != [] && (t.closing || steps[0] == CloseStep)
    ensures Run(form, t, steps).closing && Run(form, t, steps).history == t.history
    decreases |steps|
  {
    var u := Apply(form, t, steps[0]);
    StepInv(form, t, steps[0]);
    if t.closing { StepClosed(form, t, steps[0]); }
    if |steps| > 1 { ClosedNeverGrows(form, u, steps[1..]); }
  }

  /** The count of entries to check grows by one with every entry that comes or goes, and falls by one with every
      tick, never below 0. */
  lemma TickTodo<A>(t: Table<A>, live: set<Pid>)
    requires Inv(t) && t.sweeping
    ensures var u := Tick(t, live);
      u.toCheck == (if t.toCheck == 0 then 0 else t.toCheck - 1) + (|t.listed| - |u.listed|)
  {
    SubsequenceMembers(t.listed, t.history);
    InvSafe(t);
    TickBySteps(t, live);
  }

  // ---------------------------------------------------------------- the sweep converges

  /** The listed entries whose process is alive, and the number of the others. */
  ghost function Alive<A>(t: Table<A>, live: set<Pid>): set<A>
    requires forall a :: a in t.listed ==> a in t.pids
  {
    set a | a in t.listed && t.pids[a] in live
  }

  ghost function DeadCount<A>(s: seq<A>, alive: set<A>): nat {
    |s| - |Keep(s, alive)|
  }

  /** The ticks of `d` full passes over `l` live entries. */
  ghost function Passes(d: nat, l: nat): nat {
    if d == 0 then 0 else Passes(d - 1, l) + l + 1
  }

  lemma {:induction false} PassesProduct(d: nat, l: nat)
    ensures Passes(d, l) == d * (l + 1)
  {
    if d > 0 {
      PassesProduct(d - 1, l);
      assert d * (l + 1) == (d - 1) * (l + 1) + (l + 1);
    }
  }

  /** Ticks still needed at most, with `p` entries of the present pass visited: a full pass over the live
      entries for every dead one, minus the part of the present pass already done, or plus the rest of the
      present pass if it has overlooked a dead entry (one whose process ended behind the cursor). */
  ghost function Budget<A>(s: seq<A>, p: nat, alive: set<A>): int
    requires p <= |s|
  {
    var d := DeadCount(s, alive);
    var l := |Keep(s, alive)|;
    if d == 0 then 0
    else if DeadCount(s[..p], alive) == 0 then Passes(d, l) - p
    else Passes(d, l) + |Keep(s[p..], alive)| + 1
  }

  lemma {:induction false} DeadCountZero<A>(s: seq<A>, alive: set<A>)
    ensures DeadCount(s, alive) == 0 <==> forall x :: x in s ==> x in alive
    ensures DeadCount(s, alive) == 0 ==> Keep(s, alive) == s
  {
    if s != [] {
      DeadCountZero(s[1..], alive);
      if s[0] !in alive {
        assert |Keep(s, alive)| <= |s[1..]|;
      }
      if DeadCount(s, alive) == 0 {
        assert s == [s[0]] + s[1..];
      }
    }
  }

  lemma SplitAt<A>(s: seq<A>, p: nat, alive: set<A>)
    requires p <= |s|
    ensures Keep(s, alive) == Keep(s[..p], alive) + Keep(s[p..], alive)
    ensures DeadCount(s, alive) == DeadCount(s[..p], alive) + DeadCount(s[p..], alive)
  {
    assert s == s[..p] + s[p..];
    KeepConcat(s[..p], s[p..], alive);
  }

  lemma SplitNext<A>(s: seq<A>, p: nat, alive: set<A>)
    requires p < |s|
    ensures Keep(s[p..], alive) == (if s[p] in alive then [s[p]] else []) + Keep(s[p + 1..], alive)
    ensures Keep(s[..p + 1], alive) == Keep(s[..p], alive) + (if s[p] in alive then [s[p]] else [])
  {
    assert s[p..][1..] == s[p + 1..];
    assert s[..p + 1] == s[..p] + [s[p]];
    KeepConcat(s[..p], [s[p]], alive);
  }

  lemma BudgetBounds<A>(s: seq<A>, p: nat, alive: set<A>)
    requires p <= |s|
    ensures DeadCount(s, alive) > 0 ==> Budget(s, p, alive) > 0
    ensures Budget(s, p, alive) <= Passes(DeadCount(s, alive) + 1, |Keep(s, alive)|)
  {
    SplitAt(s, p, alive);
  }

  /** The pass is over; if a dead entry is left, this pass had overlooked it. */
  lemma WrapSpends<A>(s: seq<A>, alive: set<A>)
    requires DeadCount(s, alive) > 0
    ensures Budget(s, 0, alive) < Budget(s, |s|, alive)
  {
    assert s[..|s|] == s;
  }

  lemma VisitSpends<A>(s: seq<A>, p: nat, alive: set<A>)
    requires p < |s| && s[p] in alive && DeadCount(s, alive) > 0
    ensures Budget(s, p + 1, alive) < Budget(s, p, alive)
  {
    SplitNext(s, p, alive);
  }

  lemma RemoveCounts<A>(s: seq<A>, p: nat, alive: set<A>)
    requires p < |s| && s[p] !in alive
    ensures Keep(RemoveAt(s, p), alive) == Keep(s, alive)
    ensures DeadCount(RemoveAt(s, p), alive) == DeadCount(s, alive) - 1
    ensures DeadCount(s[..p], alive) == 0 ==> p <= |Keep(s, alive)|
  {
    SplitAt(s, p, alive);
    SplitNext(s, p, alive);
    KeepConcat(s[..p], s[p + 1..], alive);
  }

  lemma RemoveSpends<A>(s: seq<A>, p: nat, alive: set<A>)
    requires p < |s| && s[p] !in alive
    ensures DeadCount(s, alive) > 0
    ensures Budget(RemoveAt(s, p), 0, alive) < Budget(s, p, alive)
  {
    RemoveCounts(s, p, alive);
    var r := RemoveAt(s, p);
    assert Budget(r, 0, alive) <= Passes(DeadCount(s, alive) - 1, |Keep(s, alive)|);
  }

  /** Where one tick leaves the list and the cursor. */
  lemma TickMoves<A>(t: Table<A>, live: set<Pid>)
    requires Inv(t) && t.sweeping
    ensures var u := Tick(t, live);
      var p := Position(t);
      && u.sweeping && u.pids == t.pids
      && p <= |t.listed|
      && (if p == |t.listed| then u.listed == t.listed && Position(u) == 0
          else if t.pids[t.listed[p]] in live then u.listed == t.listed && Position(u) == p + 1
          else u.listed == RemoveAt(t.listed, p) && Position(u) == 0)
  {
    SubsequenceMembers(t.listed, t.history);
    CursorPosition(t);
  }

  /** One tick keeps the live entries in place and uses up at least one unit of the budget. */
  lemma TickProgress<A>(t: Table<A>, live: set<Pid>, alive: set<A>)
    requires Inv(t) && t.sweeping && alive == Alive(t, live)
    ensures var u := Tick(t, live);
      && Inv(u) && u.sweeping && Alive(u, live) == alive
      && Keep(u.listed, alive) == Keep(t.listed, alive)
      && Position(t) <= |t.listed| && Position(u) <= |u.listed|
      && (DeadCount(t.listed, alive) == 0 ==> u.listed == t.listed)
      && (DeadCount(t.listed, alive) > 0 ==>
            Budget(u.listed, Position(u), alive) < Budget(t.listed, Position(t), alive))
  {
    TickInv(t, live);
    TickMoves(t, live);
    var p := Position(t);
    DeadCountZero(t.listed, alive);
    if p == |t.listed| {
      if DeadCount(t.listed, alive) > 0 { WrapSpends(t.listed, alive); }
    } else if t.listed[p] in alive {
      if DeadCount(t.listed, alive) > 0 { VisitSpends(t.listed, p, alive); }
    } else {
      RemoveCounts(t.listed, p, alive);
      RemoveSpends(t.listed, p, alive);
      AliveKept(t, live, p);
    }
  }

  lemma AliveKept<A>(t: Table<A>, live: set<Pid>, p: nat)
    requires p < |t.listed| && forall a :: a in t.listed ==> a in t.pids
    requires t.pids[t.listed[p]] !in live
    ensures forall a :: a in RemoveAt(t.listed, p) ==> a in t.pids
    ensures Alive(t.(listed := RemoveAt(t.listed, p)), live) == Alive(t, live)
  {
    var r := RemoveAt(t.listed, p);
    forall a | a in t.listed && t.pids[a] in live
      ensures a in r
    {
      var j :| 0 <= j < |t.listed| && t.listed[j] == a;
      assert a == r[if j < p then j else j - 1];
    }
  }

  ghost function Sweep<A>(t: Table<A>, live: set<Pid>, n: nat): Table<A>
    requires Inv(t) && t.sweeping
    decreases n
  {
    if n == 0 then t
    else
      TickInv(t, live);
      TickMoves(t, live);
      Sweep(Tick(t, live), live, n - 1)
  }

  /** At most `n` more ticks are needed. */
  ghost predicate Near<A>(t: Table<A>, live: set<Pid>, alive: set<A>, n: int) {
    && Inv(t) && t.sweeping && alive == Alive(t, live)
    && Position(t) <= |t.listed|
    && Budget(t.listed, Position(t), alive) <= n
  }

  lemma NearTick<A>(t: Table<A>, live: set<Pid>, alive: set<A>, n: nat)
    requires Near(t, live, alive, n) && n > 0
    ensures Near(Tick(t, live), live, alive, n - 1)
    ensures Keep(Tick(t, live).listed, alive) == Keep(t.listed, alive)
  {
    TickProgress(t, live, alive);
  }

  /** That many ticks leave exactly the live entries. */
  ghost predicate Settles<A>(t: Table<A>, live: set<Pid>, alive: set<A>, n: nat) {
    Inv(t) && t.sweeping && Sweep(t, live, n).listed == Keep(t.listed, alive)
  }

  lemma SweepDone<A>(t: Table<A>, live: set<Pid>, alive: set<A>)
    requires Near(t, live, alive, 0)
    ensures Settles(t, live, alive, 0)
  {
    BudgetBounds(t.listed, Position(t), alive);
    DeadCountZero(t.listed, alive);
  }

  lemma SweepOnce<A>(t: Table<A>, live: set<Pid>, n: nat)
    requires Inv(t) && t.sweeping && n > 0
    ensures Inv(Tick(t, live)) && Tick(t, live).sweeping
    ensures Sweep(t, live, n) == Sweep(Tick(t, live), live, n - 1)
  {
    TickInv(t, live);
    TickMoves(t, live);
  }

  /** The sweep comes down to what it does after its first tick. */
  lemma SweepNext<A>(t: Table<A>, live: set<Pid>, alive: set<A>, n: nat) returns (u: Table<A>)
    requires Near(t, live, alive, n) && n > 0
    ensures Near(u, live, alive, n - 1)
    ensures Settles(u, live, alive, n - 1) ==> Settles(t, live, alive, n)
  {
    u := Tick(t, live);
    NearTick(t, live, alive, n);
    SweepOnce(t, live, n);
  }

  lemma {:induction false} SweepSpends<A>(t: Table<A>, live: set<Pid>, alive: set<A>, n: nat)
    requires Near(t, live, alive, n)
    ensures Settles(t, live, alive, n)
    decreases n
  {
    if n == 0 {
      SweepDone(t, live, alive);
    } else {
      var u := SweepNext(t, live, alive, n);
      SweepSpends(u, live, alive, n - 1);
    }
  }

  /** With the set of live processes fixed and no additions, the sweep, wherever its cursor stands, leaves
      exactly the live entries in their original order after at most (d + 1) * (l + 1) ticks, d being
      the number of dead entries and l that of live ones, and any number of further ticks changes nothing. */
  lemma SweepConverges<A>(t: Table<A>, live: set<Pid>, n: nat)
    requires Inv(t) && t.sweeping
    requires var alive := Alive(t, live);
      n >= (DeadCount(t.listed, alive) + 1) * (|Keep(t.listed, alive)| + 1)
    ensures Sweep(t, live, n).listed == Keep(t.listed, Alive(t, live))
  {
    TickMoves(t, live);
    BudgetBounds(t.listed, Position(t), Alive(t, live));
    PassesProduct(DeadCount(t.listed, Alive(t, live)) + 1, |Keep(t.listed, Alive(t, live))|);
    SweepSpends(t, live, Alive(t, live), n);
  }

  // ---------------------------------------------------------------- shutdown

  lemma StepFrozen<A>(form: Form, t: Table<A>, s: Step<A>)
    requires Inv(t) && !t.sweeping && Enabled(t, s)
    ensures Apply(form, t, s).cursor == t.cursor && !Apply(form, t, s).sweeping
  {}

  /** After the thread has left, nothing touches the cursor any more. */
  lemma {:induction false} CursorFrozen<A>(form: Form, t: Table<A>, steps: seq<Step<A>>)
    requires Inv(t) && !t.sweeping && ValidRun(form, t, steps)
    ensures Run(form, t, steps).cursor == t.cursor && !Run(form, t, steps).sweeping
    decreases |steps|
  {
    if steps != [] {
      StepInv(form, t, steps[0]);
      StepFrozen(form, t, steps[0]);
      CursorFrozen(form, Apply(form, t, steps[0]), steps[1..]);
    }
  }

  /** Whether the shutdown gives every application back.  Take any run after the sweep thread left, at the
      end of which the list is drained and nobody holds anything.  Corrected, every application has been
      deleted.  As written, all have been deleted if and only if the cursor was null when the thread left;
      otherwise exactly the application under the cursor is never deleted. */
  lemma ShutdownLeak<A>(form: Form, t: Table<A>, steps: seq<Step<A>>)
    requires Inv(t) && Enabled(t, ExitStep)
    requires Inv(Exit(form, t)) && ValidRun(form, Exit(form, t), steps)
    requires var u := Run(form, Exit(form, t), steps); u.listed == [] && u.held == multiset{}
    ensures var u := Run(form, Exit(form, t), steps);
      && ToSet(u.counts.freed)
         == ToSet(u.history) - (if form == AsWritten && t.cursor.Some? then {t.cursor.value} else {})
      && (ToSet(u.counts.freed) == ToSet(u.history) <==> form == Corrected || t.cursor.None?)
  {
    var u := Run(form, Exit(form, t), steps);
    CursorFrozen(form, Exit(form, t), steps);
    forall a | a in u.history
      ensures a in u.counts.freed <==> u.cursor != Some(a)
    {
      assert u.counts.refs[a] == Owners(u, a);
    }
    if form == AsWritten && t.cursor.Some? {
      assert t.cursor.value in u.history;
    }
  }

  /** The leak does happen: one exec, one tick that finds the process alive, then the shutdown. */
  lemma ShutdownLeakExample()
    ensures var t := Add(Empty<nat>(), 7, 0);
      && Inv(t)
      && var u := Drain(Exit(AsWritten, Tick(t, {7}).(closing := true)));
         && u.listed == [] && u.held == multiset{} && u.counts.freed == [] && u.counts.refs[0] == 1
  {
    var t := Add(Empty<nat>(), 7, 0);
    assert t.history == [0] && t.listed == [0];
    AddInv(Empty<nat>(), 7, 0);
    var v := Tick(t, {7});
    assert v.listed == [0] && v.counts.refs[0] == 2;
    assert ReleaseAll(v.counts, [0]) == ReleaseAll(v.counts.Release(0), []);
  }
}
