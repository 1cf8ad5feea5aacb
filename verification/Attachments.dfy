/** Sockets and the process table together (Kext/firewall.cpp:96-142 and 577-606): attaching a socket obtains its
    application and lists a cookie for it, detaching unlists the cookie and gives the application back. */
module Attachments {
  import opened Common
  import opened References
  import PT = ProcessTable

  /** `cookies` is the list of attached cookies, newest first, `owner` the application of each; `inFlight` are the
      applications obtained by an `Attach` that has not listed its cookie yet.  `closing` is set at the start of
      `Firewall::Free`, `unloaded` once it has found no attached socket and goes on. */
  datatype Sockets<C, A> = Sockets(
    table: PT.Table<A>,
    cookies: seq<C>,
    owner: map<C, A>,
    inFlight: multiset<A>,
    closing: bool,
    unloaded: bool)

  /** The applications of some cookies. */
  function OwnersOf<C, A>(cookies: seq<C>, owner: map<C, A>): multiset<A>
    requires forall c :: c in cookies ==> c in owner
  {
    if cookies == [] then multiset{} else multiset{owner[cookies[0]]} + OwnersOf(cookies[1..], owner)
  }

  ghost predicate Inv<C, A>(s: Sockets<C, A>) {
    && PT.Inv(s.table)
    && Distinct(s.cookies)
    && (forall c :: c in s.cookies ==> c in s.owner)
    && s.table.held == s.inFlight + OwnersOf(s.cookies, s.owner)
  }

  datatype Step<C, A> =
    | ObtainStep(passed: bool, pid: PT.Pid, node: Option<A>)
    | ListStep(c: C, a: A)
    | DetachStep(c: C)
    | TableStep(s: PT.Step<A>)
    | BeginFreeStep
    | GateStep

  /** The table's own steps are the exec notices, the sweep and the shutdown, which `Firewall::Free` begins only behind
      its test for attached sockets; the others are what sockets do.  An `Attach` may have passed the test of `closing`
      before it was set, so it is possible at any time. */
  ghost predicate Enabled<C, A>(s: Sockets<C, A>, step: Step<C, A>) {
    match step
    case ObtainStep(passed, pid, node) => PT.Enabled(s.table, PT.GetStep(passed, pid, node))
    case ListStep(c, a) => c !in s.owner && a in s.inFlight
    case DetachStep(c) => c in s.cookies
    case TableStep(t) =>
      !t.GetStep? && !t.DropStep? && (t.CloseStep? || t.DrainStep? ==> s.unloaded) && PT.Enabled(s.table, t)
    case BeginFreeStep => true
    case GateStep => s.closing && s.cookies == []
  }

  lemma {:induction false} OwnersOfMember<C, A>(cookies: seq<C>, owner: map<C, A>, c: C)
    requires c in cookies && forall d :: d in cookies ==> d in owner
    ensures owner[c] in OwnersOf(cookies, owner)
  {
    if cookies[0] != c {
      OwnersOfMember(cookies[1..], owner, c);
    }
  }

  lemma {:induction false} OwnersOfRemove<C, A>(cookies: seq<C>, owner: map<C, A>, i: nat)
    requires i < |cookies| && forall d :: d in cookies ==> d in owner
    ensures OwnersOf(cookies, owner) == OwnersOf(RemoveAt(cookies, i), owner) + multiset{owner[cookies[i]]}
  {
    var r := RemoveAt(cookies, i);
    if i == 0 {
      assert r == cookies[1..];
    } else {
      OwnersOfRemove(cookies[1..], owner, i - 1);
      assert r[0] == cookies[0] && r[1..] == RemoveAt(cookies[1..], i - 1);
      var first, last, rest := multiset{owner[cookies[0]]}, multiset{owner[cookies[i]]}, OwnersOf(r[1..], owner);
      assert first + (rest + last) == (first + rest) + last;
    }
  }

  lemma {:induction false} OwnersOfSame<C, A>(cookies: seq<C>, a: map<C, A>, b: map<C, A>)
    requires forall d :: d in cookies ==> d in a && d in b && a[d] == b[d]
    ensures OwnersOf(cookies, a) == OwnersOf(cookies, b)
  {
    if cookies != [] {
      OwnersOfSame(cookies[1..], a, b);
    }
  }

  ghost function Apply<C, A>(form: Form, s: Sockets<C, A>, step: Step<C, A>): Sockets<C, A>
    requires Inv(s) && Enabled(s, step)
  {
    match step
    case ObtainStep(passed, pid, node) =>
      var (table, found) := PT.Get(s.table, passed, pid, node);
      s.(table := table, inFlight := if found.Some? then s.inFlight + multiset{found.value} else s.inFlight)
    case ListStep(c, a) =>
      s.(cookies := [c] + s.cookies, owner := s.owner[c := a], inFlight := s.inFlight - multiset{a})
    case DetachStep(c) => Detach(s, c)
    case TableStep(t) => s.(table := PT.Apply(form, s.table, t))
    case BeginFreeStep => s.(closing := true)
    case GateStep => s.(unloaded := true)
  }

  ghost function Detach<C, A>(s: Sockets<C, A>, c: C): Sockets<C, A>
    requires Inv(s) && c in s.cookies
  {
    OwnersOfMember(s.cookies, s.owner, c);
    assert s.owner[c] in s.table.held;
    s.(table := PT.Drop(s.table, s.owner[c]), cookies := RemoveAt(s.cookies, IndexOf(s.cookies, c)))
  }

  lemma DetachHeld<C, A>(s: Sockets<C, A>, c: C)
    requires Inv(s) && c in s.cookies
    ensures var u := Detach(s, c); u.table.held == u.inFlight + OwnersOf(u.cookies, u.owner)
  {
    var i := IndexOf(s.cookies, c);
    OwnersOfMember(s.cookies, s.owner, c);
    OwnersOfRemove(s.cookies, s.owner, i);
    var o := OwnersOf(RemoveAt(s.cookies, i), s.owner);
    assert s.inFlight + (o + multiset{s.owner[c]}) - multiset{s.owner[c]} == s.inFlight + o;
  }

  lemma DetachInv<C, A>(s: Sockets<C, A>, c: C)
    requires Inv(s) && c in s.cookies
    ensures Inv(Detach(s, c))
  {
    OwnersOfMember(s.cookies, s.owner, c);
    PT.DropInv(s.table, s.owner[c]);
    RemoveAtMembers(s.cookies, IndexOf(s.cookies, c));
    DetachHeld(s, c);
    var u := Detach(s, c);
    assert forall d :: d in u.cookies ==> d in ToSet(u.cookies);
  }

  lemma ListInv<C, A>(form: Form, s: Sockets<C, A>, c: C, a: A)
    requires Inv(s) && c !in s.owner && a in s.inFlight
    ensures Inv(Apply(form, s, ListStep(c, a)))
  {
    var u := Apply(form, s, ListStep(c, a));
    OwnersOfSame(s.cookies, s.owner, u.owner);
    assert u.cookies[1..] == s.cookies;
    assert OwnersOf(u.cookies, u.owner) == multiset{a} + OwnersOf(s.cookies, s.owner);
    var o := OwnersOf(s.cookies, s.owner);
    assert (s.inFlight - multiset{a}) + (multiset{a} + o) == s.inFlight + o;
  }

  /** The table's own steps touch no outside reference. */
  lemma TableHeld<A>(form: Form, t: PT.Table<A>, step: PT.Step<A>)
    requires PT.Inv(t) && PT.Enabled(t, step) && !step.GetStep? && !step.DropStep?
    ensures PT.Apply(form, t, step).held == t.held
  {
    match step
    case TickStep(live) => PT.TickHeld(t, live);
    case _ =>
  }

  lemma StepInv<C, A>(form: Form, s: Sockets<C, A>, step: Step<C, A>)
    requires Inv(s) && Enabled(s, step)
    ensures Inv(Apply(form, s, step))
  {
    match step
    case ObtainStep(passed, pid, node) => ObtainInv(s, passed, pid, node);
    case ListStep(c, a) => ListInv(form, s, c, a);
    case DetachStep(c) => DetachInv(s, c);
    case TableStep(t) =>
      PT.StepInv(form, s.table, t);
      TableHeld(form, s.table, t);
    case BeginFreeStep =>
    case GateStep =>
  }

  lemma ObtainInv<C, A>(s: Sockets<C, A>, passed: bool, pid: PT.Pid, node: Option<A>)
    requires Inv(s) && PT.Enabled(s.table, PT.GetStep(passed, pid, node))
    ensures var (table, found) := PT.Get(s.table, passed, pid, node);
      && PT.Inv(table)
      && table.held == s.table.held + (if found.Some? then multiset{found.value} else multiset{})
  {
    PT.GetInv(s.table, passed, pid, node);
  }

  ghost predicate ValidRun<C, A>(form: Form, s: Sockets<C, A>, steps: seq<Step<C, A>>)
    requires Inv(s)
    decreases |steps|
  {
    steps == [] ||
    (Enabled(s, steps[0]) && (StepInv(form, s, steps[0]); ValidRun(form, Apply(form, s, steps[0]), steps[1..])))
  }

  ghost function Run<C, A>(form: Form, s: Sockets<C, A>, steps: seq<Step<C, A>>): (u: Sockets<C, A>)
    requires Inv(s) && ValidRun(form, s, steps)
    ensures Inv(u)
    decreases |steps|
  {
    if steps == [] then s
    else
      StepInv(form, s, steps[0]);
      Run(form, Apply(form, s, steps[0]), steps[1..])
  }

  ghost function Start<C, A>(): (s: Sockets<C, A>)
    ensures Inv(s)
  {
    Sockets(PT.Empty(), [], map[], multiset{}, false, false)
  }

  /** Whatever the interleaving of execs, attaches, detaches, sweep ticks and shutdown: an application's count is
      one for the list, one for the cursor, one for every attach in progress and one for every attached cookie
      that names it, so no application an attached cookie names has been deleted. */
  lemma EveryRunCountsCookies<C, A>(form: Form, steps: seq<Step<C, A>>)
    requires ValidRun(form, Start<C, A>(), steps)
    ensures var s := Run(form, Start<C, A>(), steps);
      && (forall a :: a in s.table.history ==>
            s.table.counts.refs[a] == Bit(a in s.table.listed) + Bit(s.table.cursor == Some(a))
                                      + s.inFlight[a] + OwnersOf(s.cookies, s.owner)[a])
      && (forall c :: c in s.cookies ==> s.owner[c] in s.table.history && s.owner[c] !in s.table.counts.freed)
  {
    var s := Run(form, Start<C, A>(), steps);
    forall a | a in s.table.history
      ensures s.table.counts.refs[a] == Bit(a in s.table.listed) + Bit(s.table.cursor == Some(a))
                                        + s.inFlight[a] + OwnersOf(s.cookies, s.owner)[a]
    {
      assert s.table.counts.refs[a] == PT.Owners(s.table, a);
    }
    forall c | c in s.cookies
      ensures s.owner[c] in s.table.history && s.owner[c] !in s.table.counts.freed
    {
      OwnersOfMember(s.cookies, s.owner, c);
      PT.InvSafe(s.table);
    }
  }

  // ---------------------------------------------------------------- unloading

  /** No step of a run obtains an application: the `Attach` callbacks are over. */
  ghost predicate NoAttach<C, A>(steps: seq<Step<C, A>>) {
    forall i :: 0 <= i < |steps| ==> !steps[i].ObtainStep?
  }

  lemma StepQuiet<C, A>(form: Form, s: Sockets<C, A>, step: Step<C, A>)
    requires Inv(s) && Enabled(s, step) && !step.ObtainStep? && s.cookies == [] && s.inFlight == multiset{}
    ensures Apply(form, s, step).cookies == [] && Apply(form, s, step).inFlight == multiset{}
  {}

  /** Behind the test nothing attaches again. */
  lemma {:induction false} QuietRun<C, A>(form: Form, s: Sockets<C, A>, steps: seq<Step<C, A>>)
    requires Inv(s) && ValidRun(form, s, steps) && NoAttach(steps)
    requires s.cookies == [] && s.inFlight == multiset{}
    ensures Run(form, s, steps).cookies == [] && Run(form, s, steps).inFlight == multiset{}
    decreases |steps|
  {
    if steps != [] {
      assert !steps[0].ObtainStep?;
      StepInv(form, s, steps[0]);
      StepQuiet(form, s, steps[0]);
      var rest := steps[1..];
      assert forall i :: 0 <= i < |rest| ==> rest[i] == steps[i + 1];
      QuietRun(form, Apply(form, s, steps[0]), rest);
    }
  }

  lemma {:induction false} NoOwners<C, A>(cookies: seq<C>, owner: map<C, A>)
    requires forall c :: c in cookies ==> c in owner
    ensures OwnersOf(cookies, owner) == multiset{} <==> cookies == []
  {
    if cookies != [] {
      assert owner[cookies[0]] in OwnersOf(cookies, owner);
    }
  }

  lemma DrainedFrees<A>(t: PT.Table<A>)
    requires PT.Inv(t) && t.listed == []
    ensures ToSet(t.counts.freed) == ToSet(t.history) <==> t.cursor.None? && t.held == multiset{}
  {
    forall a | a in t.history
      ensures a in t.counts.freed <==> t.cursor != Some(a) && a !in t.held
    {
      assert t.counts.refs[a] == PT.Owners(t, a);
    }
    if t.cursor.Some? {
      assert t.cursor.value in ToSet(t.history) && t.cursor.value !in ToSet(t.counts.freed);
    } else if a :| a in t.held {
      assert a in ToSet(t.history) && a !in ToSet(t.counts.freed);
    } else {
      assert forall a :: a in ToSet(t.counts.freed) <==> a in ToSet(t.history);
    }
  }

  /** In any reachable state with the list drained every application has been deleted if and only if the cursor is null,
      no socket is attached and no attach is in progress. */
  lemma DrainedMeansDeleted<C, A>(s: Sockets<C, A>)
    requires Inv(s) && s.table.listed == []
    ensures ToSet(s.table.counts.freed) == ToSet(s.table.history) <==>
      s.table.cursor.None? && s.cookies == [] && s.inFlight == multiset{}
  {
    DrainedFrees(s.table);
    NoOwners(s.cookies, s.owner);
    var o := OwnersOf(s.cookies, s.owner);
    assert s.inFlight + o == multiset{} ==> s.inFlight == multiset{} && o == multiset{} by {
      assert s.inFlight <= s.inFlight + o && o <= s.inFlight + o;
    }
  }

  /** Corrected, the cursor is null once the sweep thread has left. */
  ghost predicate CursorGone<C, A>(s: Sockets<C, A>) {
    !s.table.sweeping ==> s.table.cursor.None?
  }

  lemma TableGone<A>(t: PT.Table<A>, step: PT.Step<A>)
    requires PT.Inv(t) && PT.Enabled(t, step) && (!t.sweeping ==> t.cursor.None?)
    ensures var u := PT.Apply(Corrected, t, step); !u.sweeping ==> u.cursor.None?
  {
    if !t.sweeping { PT.StepFrozen(Corrected, t, step); }
    if step.TickStep? { PT.TickMoves(t, step.live); }
  }

  lemma StepGone<C, A>(s: Sockets<C, A>, step: Step<C, A>)
    requires Inv(s) && Enabled(s, step) && CursorGone(s)
    ensures CursorGone(Apply(Corrected, s, step))
  {
    match step
    case ObtainStep(passed, pid, node) => TableGone(s.table, PT.GetStep(passed, pid, node));
    case TableStep(t) => TableGone(s.table, t);
    case _ =>
  }

  lemma {:induction false} RunGone<C, A>(s: Sockets<C, A>, steps: seq<Step<C, A>>)
    requires Inv(s) && ValidRun(Corrected, s, steps) && CursorGone(s)
    ensures CursorGone(Run(Corrected, s, steps))
    decreases |steps|
  {
    if steps != [] {
      StepInv(Corrected, s, steps[0]);
      StepGone(s, steps[0]);
      RunGone(Apply(Corrected, s, steps[0]), steps[1..]);
    }
  }

  /** `Firewall::Free` goes on behind its test while no attach is in progress or comes later.  Once the sweep has left
      and the list is drained, every application has been deleted if and only if the corrected form is used or the
      cursor is null. */
  lemma UnloadingDeletesAll<C, A>(form: Form, before: seq<Step<C, A>>, steps: seq<Step<C, A>>)
    requires ValidRun(form, Start<C, A>(), before)
    requires var s := Run(form, Start<C, A>(), before);
      && Enabled(s, GateStep) && s.inFlight == multiset{}
      && Inv(s.(unloaded := true)) && ValidRun(form, s.(unloaded := true), steps) && NoAttach(steps)
    requires var u := Run(form, Run(form, Start<C, A>(), before).(unloaded := true), steps);
      u.table.listed == [] && !u.table.sweeping
    ensures var u := Run(form, Run(form, Start<C, A>(), before).(unloaded := true), steps);
      ToSet(u.table.counts.freed) == ToSet(u.table.history) <==> form == Corrected || u.table.cursor.None?
  {
    var s := Run(form, Start<C, A>(), before);
    QuietRun(form, s.(unloaded := true), steps);
    DrainedMeansDeleted(Run(form, s.(unloaded := true), steps));
    if form == Corrected {
      RunGone(Start<C, A>(), before);
      RunGone(s.(unloaded := true), steps);
    }
  }
}
