/** The process table on the heap (Kext/application.h, Kext/application.cpp): `Application` objects linked
    through `prev` and `next`, and the sweep thread's cursor.  Each method is one lock-protected section and
    is proved against the corresponding step of `ProcessTable`. */
module ApplicationsHeap {
  import opened Common
  import opened References
  import opened IntrusiveList
  import opened PT = ProcessTable

  datatype Process = Process(pid: Pid, parent: Pid, uid: int, gid: int, path: string)

  type Application = Node<Process>

  /** The lock-protected sections, with what the kernel answers inside them. */
  datatype Request =
    | Exec(process: Process, memory: bool)
    | Obtain(passed: bool, process: Process, memory: bool)
    | GiveBack(application: Application)
    | SweepOnce(live: set<Pid>)
    | BeginShutdown
    | LeaveSweep
    | DrainAll

  ghost predicate Identified(pids: map<Application, Pid>)
    reads pids.Keys`value
  {
    forall n :: n in pids ==> n.value.pid == pids[n]
  }

  class Applications {
    var head: Node?<Process>
    var closing: int
    var countProcessesToCheck: int
    /** The sweep thread's local variable `checked`, and whether that thread still runs. */
    var checked: Node?<Process>
    var sweeping: bool
    ghost var S: Table<Application>

    /** The fields agree with the abstract table; nothing is said about the law of counts here. */
    ghost predicate Coupled()
      reads this, S.counts.refs.Keys, S.pids.Keys
    {
      && (forall n :: n in S.listed ==> n in S.counts.refs && n in S.pids)
      && Linked(S.listed, {}, head)
      && Agrees()
    }

    /** All but the list. */
    ghost predicate Agrees()
      reads this, S.counts.refs.Keys, S.pids.Keys
    {
      && Identified(S.pids)
      && Counted(S.counts)
      && S.cursor == AsOption(checked)
      && S.sweeping == sweeping
      && S.closing == (closing != 0)
      && S.toCheck == countProcessesToCheck
    }

    constructor ()
      ensures Coupled() && S == Empty()
    {
      head, checked := null, null;
      closing, countProcessesToCheck := 0, 0;
      sweeping := true;
      S := Empty();
    }

    method Retain(application: Application)
      requires Coupled() && application in S.counts.refs && application !in S.counts.freed
      modifies this`S, application`references
      ensures Coupled() && S == old(S).(counts := old(S).counts.Retain(application))
    {
      var before := application.Retain();
      S := S.(counts := S.counts.Retain(application));
    }

    method Release(application: Application)
      requires Coupled() && application in S.counts.refs && application !in S.counts.freed
      modifies this`S, application`references, application`freed
      ensures Coupled() && S == old(S).(counts := old(S).counts.Release(application))
    {
      var left := application.Release();
      S := S.(counts := S.counts.Release(application));
    }

    /** The abstract state follows the links. */
    ghost method Relist(listed: seq<Application>)
      requires Agrees() && Linked(listed, {}, head) && forall n :: n in listed ==> n in S.counts.refs && n in S.pids
      modifies this`S
      ensures Coupled() && S == old(S).(listed := listed)
    {
      S := S.(listed := listed);
    }

    /** The links alone. */
    method TakeOut(application: Application, ghost i: nat)
      requires Linked(S.listed, {}, head) && i < |S.listed| && application == S.listed[i]
      modifies this`head, S.listed`prev, S.listed`next
      ensures Linked(RemoveAt(S.listed, i), {}, head)
    {
      assert Unlinked(S.listed, {}, i) == RemoveAt(S.listed, i) && Mended(S.listed, {}, i) == {};
      head := Unlink(head, application, S.listed, {}, i);
    }

    /** `Remove` unlinks without touching the links of the removed node. */
    method Remove(application: Application, ghost i: nat)
      requires Coupled() && i < |S.listed| && application == S.listed[i]
      modifies this`S, this`head, S.listed`prev, S.listed`next
      ensures Coupled() && S == old(S).(listed := RemoveAt(old(S).listed, i))
    {
      RemoveAtMembers(S.listed, i);
      TakeOut(application, i);
      Relist(RemoveAt(S.listed, i));
    }

    /** The object becomes known with the count `Add` gives it; it is not listed yet. */
    method Create(process: Process) returns (result: Application)
      requires Coupled()
      modifies this`S
      ensures Coupled()
      ensures fresh(result) && result.value == process && result.prev == null && result !in old(S).counts.refs
      ensures S == old(S).(pids := old(S).pids[result := process.pid], counts := old(S).counts.Track(result, 1))
    {
      result := new Node(process, 0);
      assert result !in S.counts.refs && result !in S.pids;
      var before := result.Retain();
      S := S.(pids := S.pids[result := process.pid], counts := S.counts.Track(result, 1));
    }

    method Push(application: Application)
      requires Coupled() && application in S.counts.refs && application in S.pids
      requires application !in S.listed && application.prev == null
      modifies this`S, this`head, application`next, S.listed`prev
      ensures Coupled() && S == old(S).(listed := [application] + old(S).listed)
    {
      head := PushFront(head, application, S.listed, {});
      S := S.(listed := [application] + S.listed);
    }

    method Add(process: Process) returns (result: Application)
      requires Coupled()
      modifies this, S.counts.refs.Keys
      ensures Coupled()
      ensures fresh(result) && result.value == process && result !in old(S).counts.refs
      ensures S == PT.Add(old(S), process.pid, result)
    {
      result := Create(process);
      Push(result);
      CountNew(result);
    }

    method CountNew(application: Application)
      requires Coupled()
      modifies this`S, this`countProcessesToCheck
      ensures Coupled()
      ensures S == old(S).(history := [application] + old(S).history, toCheck := old(S).toCheck + 1)
    {
      countProcessesToCheck := countProcessesToCheck + 1;
      S := S.(history := [application] + S.history, toCheck := countProcessesToCheck);
    }

    /** The exec callback; `memory` tells whether the allocation succeeds. */
    method AddLocked(process: Process, memory: bool) returns (ghost node: Option<Application>)
      requires Coupled()
      modifies this, S.counts.refs.Keys
      ensures Coupled()
      ensures node.Some? ==> fresh(node.value) && node.value !in old(S).counts.refs
      ensures node.Some? <==> memory && !old(S).closing
      ensures S == ExecNotice(old(S), process.pid, node)
      ensures node.Some? ==>
        head == node.value && node.value.value == process && S.listed == [node.value] + old(S).listed
      ensures node.None? ==> S == old(S) && head == old(head)
    {
      node := None;
      if closing == 0 && memory {
        var added := Add(process);
        node := Some(added);
      }
    }

    /** The scan of `Get`. */
    method Scan(pid: Pid) returns (result: Node?<Process>)
      requires Coupled()
      ensures AsOption(result) == Lookup(S.listed, S.pids, pid)
    {
      result := head;
      ghost var i := 0;
      while result != null && result.value.pid != pid
        invariant i <= |S.listed|
        invariant result == if i < |S.listed| then S.listed[i] else null
        invariant Lookup(S.listed[i..], S.pids, pid) == Lookup(S.listed, S.pids, pid)
        decreases |S.listed| - i
      {
        assert S.listed[i..][1..] == S.listed[i + 1..];
        result := result.next;
        i := i + 1;
      }
    }

    /** The caller of `Get` receives its own reference. */
    method Lend(application: Application)
      requires Coupled() && application in S.counts.refs && application !in S.counts.freed
      modifies this`S, application`references
      ensures Coupled() && S == Hold(old(S), application)
    {
      Retain(application);
      S := S.(held := S.held + multiset{application});
    }

    /** `Get`, `passed` being the outcome of the test of `closing` before the lock is taken. */
    method Get(passed: bool, process: Process, memory: bool)
      returns (result: Node?<Process>, ghost node: Option<Application>)
      requires Coupled() && Safe(S)
      modifies this, S.counts.refs.Keys
      ensures Coupled()
      ensures node.Some? ==> fresh(node.value) && node.value !in old(S).counts.refs
      ensures node.Some? <==>
                passed && memory && !old(S).closing && Lookup(old(S).listed, old(S).pids, process.pid).None?
      ensures (S, AsOption(result)) == PT.Get(old(S), passed, process.pid, node)
    {
      result, node := null, None;
      if passed {
        result := Scan(process.pid);
        if result == null && closing == 0 && memory {
          result := Add(process);
          node := Some(result);
        }
        if result != null {
          Lend(result);
        }
      }
    }

    /** A holder releases its application. */
    method Drop(application: Application)
      requires Coupled() && application in S.counts.refs && application !in S.counts.freed
      modifies this, S.counts.refs.Keys
      ensures Coupled() && S == PT.Drop(old(S), application)
    {
      Release(application);
      S := S.(held := S.held - multiset{application});
    }

    /** One pass through the critical section of `CheckIsLiveRoutine`. */
    method SweepTick(live: set<Pid>)
      requires Coupled() && Safe(S) && sweeping
      modifies this, S.counts.refs.Keys
      ensures Coupled() && S == Tick(old(S), live)
    {
      TickBySteps(S, live);
      ghost var p := Position(S);
      var next := Advance(Leave(S).(toCheck := if S.toCheck > 0 then S.toCheck - 1 else S.toCheck));
      if next != null {
        Judge(next, live, p);
      }
    }

    /** The entry after the cursor, or the head, is next; the cursor releases its own entry. */
    method Advance(ghost u: Table<Application>) returns (next: Node?<Process>)
      requires Coupled() && Safe(S) && (checked != null ==> checked in S.listed)
      requires u == Leave(S).(toCheck := if S.toCheck > 0 then S.toCheck - 1 else S.toCheck)
      modifies this, S.counts.refs.Keys`references, S.counts.refs.Keys`freed
      ensures Coupled() && S == u && checked == null && AsOption(next) == Next(old(S).listed, old(S).cursor)
    {
      next := if checked == null then head else checked.next;
      if checked != null {
        LetGo();
      }
      SetCount(if countProcessesToCheck > 0 then countProcessesToCheck - 1 else countProcessesToCheck);
    }

    method SetCount(n: int)
      requires Coupled()
      modifies this`S, this`countProcessesToCheck
      ensures Coupled() && S == old(S).(toCheck := n)
    {
      countProcessesToCheck := n;
      S := S.(toCheck := n);
    }

    /** The entry stays under the cursor if its process lives; otherwise it is taken out and the sweep starts over. */
    method Judge(next: Application, live: set<Pid>, ghost p: nat)
      requires Coupled() && checked == null && p < |S.listed| && next == S.listed[p]
      requires next !in S.counts.freed
      modifies this, next, S.listed`prev, S.listed`next
      ensures Coupled()
      ensures S == if old(S).pids[next] in live then Visit(old(S), next) else Unlist(old(S), p)
    {
      if next.value.pid in live {
        Retain(next);
        checked := next;
        S := S.(cursor := Some(next));
      } else {
        Condemn(next, p);
      }
    }

    method Condemn(next: Application, ghost p: nat)
      requires Coupled() && p < |S.listed| && next == S.listed[p] && next !in S.counts.freed
      modifies this`S, this`head, this`countProcessesToCheck, next`references, next`freed, S.listed`prev, S.listed`next
      ensures Coupled() && checked == old(checked) && S == Unlist(old(S), p)
    {
      Remove(next, p);
      Release(next);
      SetCount(countProcessesToCheck + 1);
    }

    /** The cursor releases its entry. */
    method LetGo()
      requires Coupled() && checked != null && checked in S.counts.refs && checked !in S.counts.freed
      modifies this`S, this`checked, checked`references, checked`freed
      ensures Coupled() && checked == null && S == Leave(old(S))
    {
      Release(checked);
      checked := null;
      S := S.(cursor := None);
    }

    method Close()
      requires Coupled()
      modifies this
      ensures Coupled() && S == old(S).(closing := true)
    {
      closing := 1;
      S := S.(closing := true);
    }

    /** The sweep thread returns; only the corrected form gives the cursor's reference back. */
    method ThreadExit(form: Form)
      requires Coupled() && Safe(S)
      modifies this, S.counts.refs.Keys
      ensures Coupled() && S == Exit(form, old(S))
    {
      if form == Corrected && checked != null {
        LetGo();
      }
      sweeping := false;
      S := S.(sweeping := false);
    }

    /** The loop of `Free`, after the handshake with the sweep thread. */
    method DrainList()
      requires Coupled() && Safe(S)
      modifies this, S.counts.refs.Keys
      ensures Coupled() && S == Drain(old(S)) && head == null
    {
      ghost var was := S;
      while head != null
        invariant S.counts.refs.Keys == was.counts.refs.Keys
        invariant Coupled()
        invariant S.(listed := [], counts := was.counts) == was.(listed := [])
        invariant forall n :: n in S.listed ==> n !in S.counts.freed
        invariant ReleaseAll(S.counts, S.listed) == ReleaseAll(was.counts, was.listed)
        decreases |S.listed|
      {
        DropHead();
      }
    }

    /** `Remove(head)->Release()`. */
    method DropHead()
      requires Coupled() && head != null && head !in S.counts.freed
      modifies this, S.counts.refs.Keys
      ensures Coupled()
      ensures S == old(S).(listed := old(S).listed[1..], counts := old(S).counts.Release(old(head)))
    {
      var first := head;
      assert RemoveAt(S.listed, 0) == S.listed[1..];
      Remove(first, 0);
      Release(first);
    }

    /** Every section, performed in a state of the machine, is a step of the machine: it goes from a reachable
        state to a reachable state, and the links, counts and deletions on the heap follow it. */
    method Perform(form: Form, request: Request) returns (ghost step: Step<Application>)
      requires Coupled() && Inv(S)
      requires match request
        case Exec(_, _) => true
        case Obtain(passed, _, _) => passed || closing != 0
        case GiveBack(application) => application in S.held
        case SweepOnce(_) => sweeping
        case BeginShutdown => true
        case LeaveSweep => sweeping && closing != 0
        case DrainAll => closing != 0 && !sweeping
      modifies this, S.counts.refs.Keys
      ensures Enabled(old(S), step) && S == Apply(form, old(S), step)
      ensures Coupled() && Inv(S)
    {
      InvSafe(S);
      ghost var was := S;
      match request {
        case Exec(process, memory) =>
          ghost var node := AddLocked(process, memory);
          step := ExecStep(process.pid, node);
        case Obtain(passed, process, memory) =>
          ghost var node;
          var result;
          result, node := Get(passed, process, memory);
          step := GetStep(passed, process.pid, node);
        case GiveBack(application) =>
          Drop(application);
          step := DropStep(application);
        case SweepOnce(live) =>
          SweepTick(live);
          step := TickStep(live);
        case BeginShutdown =>
          Close();
          step := CloseStep;
        case LeaveSweep =>
          ThreadExit(form);
          step := ExitStep;
        case DrainAll =>
          DrainList();
          step := DrainStep;
      }
      StepInv(form, was, step);
    }
  }
}
