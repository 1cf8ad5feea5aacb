/** Size-prefixed frames (Shared/messageType.h:166-173): how both ends walk a buffer of them
    (Shared/ServerConnection.cpp:100-107, Kext/firewall.cpp:784-1057), and the layout of the commands. */
module Framing {
  import opened Common
  import opened RuleOrder
  import RT = RuleTable
  import opened Protocol

  type Byte = b: int | 0 <= b < 256
  type Bytes = seq<Byte>

  /** Little-endian fields. */
  function U16(b: Bytes, k: nat): (n: UInt16)
    requires k + 2 <= |b|
  {
    b[k] as int + 256 * (b[k + 1] as int)
  }

  function U32(b: Bytes, k: nat): (n: UInt32)
    requires k + 4 <= |b|
  {
    U16(b, k) + 0x1_0000 * U16(b, k + 2)
  }

  /** The four bytes at a place as one number, the lowest first. */
  function Number(b0: Byte, b1: Byte, b2: Byte, b3: Byte): UInt32 {
    b0 as int + 256 * b1 as int + 65536 * b2 as int + 16777216 * b3 as int
  }

  predicate NumberAt(b: Bytes, k: nat, n: UInt32) {
    k + 4 <= |b| && Number(b[k], b[k + 1], b[k + 2], b[k + 3]) == n
  }

  function Bytes16(n: UInt16): (b: Bytes)
    ensures |b| == 2 && U16(b, 0) == n
  {
    [n % 256, n / 256]
  }

  function Bytes32(n: UInt32): (b: Bytes)
    ensures |b| == 4 && U32(b, 0) == n
  {
    Bytes16(n % 0x1_0000) + Bytes16(n / 0x1_0000)
  }

  /** How a walk over a buffer ends: at its end; past it, the last frame being longer than what is left; with a
      header that is not wholly inside; on a frame of size 0, which the loop never leaves; on a command whose
      fields are not wholly inside; or on the closing notification. */
  datatype Ending = Complete | Overrun | Truncated | Endless | Unreadable | Closed

  const HEADER := 4

  /** The frames a walk meets. */
  function Walk(b: Bytes): (seq<Bytes>, Ending)
    decreases |b|
  {
    if b == [] then ([], Complete)
    else if |b| < HEADER then ([], Truncated)
    else
      var size := U16(b, 0);
      if size == 0 then ([], Endless)
      else if size > |b| then ([b], Overrun)
      else
        var (rest, ending) := Walk(b[size..]);
        ([b[..size]] + rest, ending)
  }

  predicate SelfSized(f: Bytes) {
    |f| >= HEADER && U16(f, 0) == |f|
  }

  predicate AllSelfSized(fs: seq<Bytes>) {
    forall i :: 0 <= i < |fs| ==> SelfSized(fs[i])
  }

  function Concat(fs: seq<Bytes>): Bytes {
    if fs == [] then [] else fs[0] + Concat(fs[1..])
  }

  lemma {:induction false} WalkConcat(fs: seq<Bytes>)
    requires AllSelfSized(fs)
    ensures Walk(Concat(fs)) == (fs, Complete)
  {
    if fs != [] {
      var b := Concat(fs);
      assert fs[1..] == fs[1..];
      assert b[..|fs[0]|] == fs[0] && b[|fs[0]|..] == Concat(fs[1..]);
      assert U16(b, 0) == U16(fs[0], 0);
      WalkConcat(fs[1..]);
      assert fs == [fs[0]] + fs[1..];
    }
  }

  lemma {:induction false} WalkedIsConcat(b: Bytes)
    requires Walk(b).1 == Complete && forall i :: 0 <= i < |Walk(b).0| ==> |Walk(b).0[i]| >= HEADER
    ensures AllSelfSized(Walk(b).0) && b == Concat(Walk(b).0)
    decreases |b|
  {
    if b != [] {
      var size := U16(b, 0);
      var fs := Walk(b).0;
      assert fs[0] == b[..size] && fs[1..] == Walk(b[size..]).0;
      assert forall i :: 0 <= i < |fs[1..]| ==> fs[1..][i] == fs[i + 1];
      WalkedIsConcat(b[size..]);
      assert U16(fs[0], 0) == U16(b, 0);
      assert forall i :: 0 < i < |fs| ==> fs[i] == fs[1..][i - 1];
    }
  }

  /** Walking a buffer gives back exactly its frames if and only if the buffer is the concatenation of frames that
      state their own size. */
  lemma WalkExact(b: Bytes, fs: seq<Bytes>)
    ensures Walk(b) == (fs, Complete) && (forall i :: 0 <= i < |fs| ==> |fs[i]| >= HEADER)
       <==> AllSelfSized(fs) && b == Concat(fs)
  {
    if AllSelfSized(fs) && b == Concat(fs) {
      WalkConcat(fs);
    }
    if Walk(b) == (fs, Complete) && (forall i :: 0 <= i < |fs| ==> |fs[i]| >= HEADER) {
      WalkedIsConcat(b);
    }
  }

  /** The first frame of a buffer and those behind it. */
  lemma WalkAre(b: Bytes, size: nat, frames: seq<Bytes>, ending: Ending)
    requires |b| >= HEADER && U16(b, 0) == size && 0 < size <= |b| && Walk(b[size..]) == (frames, ending)
    ensures Walk(b) == ([b[..size]] + frames, ending)
  {}

  /** A walk that goes through the first part ends where the second begins. */
  lemma {:induction false} WalkSplit(a: Bytes, b: Bytes)
    requires Walk(a).1 == Complete
    ensures Walk(a + b).0 == Walk(a).0 + Walk(b).0
    ensures Walk(a + b).1 == Walk(b).1
    decreases |a|
  {
    if a == [] {
      assert a + b == b;
    } else {
      var size := U16(a, 0);
      WalkSplit(a[size..], b);
      assert (a + b)[..size] == a[..size] && (a + b)[size..] == a[size..] + b;
      WalkAre(a + b, size, Walk(a[size..]).0 + Walk(b).0, Walk(b).1);
      WalkAre(a, size, Walk(a[size..]).0, Complete);
    }
  }

  // ---------------------------------------------------------------- the receiving side

  const TYPE_FIREWALL_CLOSING: UInt16 := 0x0809

  predicate IsClosing(f: Bytes) {
    |f| >= HEADER && U16(f, 2) == TYPE_FIREWALL_CLOSING
  }

  /** The frames handed to the delegate from one buffer; the closing notification is the last one. */
  function Receive(b: Bytes): (seq<Bytes>, Ending)
    decreases |b|
  {
    if b == [] then ([], Complete)
    else if |b| < HEADER then ([], Truncated)
    else
      var size := U16(b, 0);
      var frame := if size > |b| then b else b[..size];
      if U16(b, 2) == TYPE_FIREWALL_CLOSING then ([frame], Closed)
      else if size == 0 then ([], Endless)
      else if size > |b| then ([b], Overrun)
      else
        var (rest, ending) := Receive(b[size..]);
        ([frame] + rest, ending)
  }

  /** The part of a frame that lies in the buffer. */
  function FrameAt(b: Bytes, k: nat): Bytes
    requires k + HEADER <= |b|
  {
    b[k..if k + U16(b, k) > |b| then |b| else k + U16(b, k)]
  }

  /** What the walk still delivers from a position on; past the end of the buffer it stops. */
  function From(b: Bytes, k: nat): (seq<Bytes>, Ending) {
    if k <= |b| then Receive(b[k..]) else ([], Overrun)
  }

  /** One iteration of the walk, with the frames delivered before it. */
  lemma FromStep(b: Bytes, k: nat, before: seq<Bytes>)
    requires k + HEADER <= |b|
    ensures var size, more := U16(b, k), before + [FrameAt(b, k)];
      var (frames, ending) := From(b, k);
      if U16(b, k + 2) == TYPE_FIREWALL_CLOSING then before + frames == more && ending == Closed
      else if size == 0 then before + frames == before && ending == Endless
      else before + frames == more + From(b, k + size).0 && ending == From(b, k + size).1
  {
    var rest, size := b[k..], U16(b, k);
    assert U16(rest, 0) == size && U16(rest, 2) == U16(b, k + 2);
    if k + size <= |b| {
      assert rest[..size] == FrameAt(b, k) && rest[size..] == b[k + size..];
    } else {
      assert rest == FrameAt(b, k);
    }
  }

  lemma FromEnd(b: Bytes, k: nat)
    requires k + HEADER > |b|
    ensures From(b, k) == ([], if k < |b| then Truncated else if k == |b| then Complete else Overrun)
  {
    if k <= |b| { assert |b[k..]| == |b| - k; }
  }

  /** The prefix through the first closing frame, or everything. */
  function Through(fs: seq<Bytes>): seq<Bytes> {
    if fs == [] then []
    else if IsClosing(fs[0]) then [fs[0]]
    else [fs[0]] + Through(fs[1..])
  }

  /** Of a buffer of self-sized frames the receiver delivers exactly the prefix through the first closing frame,
      and it stops for good if and only if there is one. */
  lemma {:induction false} ReceiveThrough(fs: seq<Bytes>)
    requires AllSelfSized(fs)
    ensures Receive(Concat(fs))
         == (Through(fs), if exists i :: 0 <= i < |fs| && IsClosing(fs[i]) then Closed else Complete)
  {
    if fs != [] {
      var b := Concat(fs);
      assert b[..|fs[0]|] == fs[0] && b[|fs[0]|..] == Concat(fs[1..]);
      assert U16(b, 0) == U16(fs[0], 0) && U16(b, 2) == U16(fs[0], 2);
      ReceiveThrough(fs[1..]);
      var tail := fs[1..];
      if i :| 0 <= i < |tail| && IsClosing(tail[i]) {
        assert IsClosing(fs[i + 1]);
      }
      if i :| 0 <= i < |fs| && IsClosing(fs[i]) {
        assert i == 0 || IsClosing(tail[i - 1]);
      }
    }
  }

  /** The receive loop goes on after a buffer. */
  predicate GoesOn(ending: Ending) {
    ending == Complete || ending == Overrun
  }

  /** What the receive loop delivers: `recv` is called until it answers 0 or fails, or a closing frame was met. */
  function Session(datagrams: seq<Bytes>): (seq<Bytes>, Ending) {
    if datagrams == [] || |datagrams[0]| == 0 then ([], Complete)
    else
      var (frames, ending) := Receive(datagrams[0]);
      if GoesOn(ending) then
        var (rest, last) := Session(datagrams[1..]);
        (frames + rest, last)
      else (frames, ending)
  }

  /** What a session delivers from a buffer on, behind what was delivered before. */
  function SessionFrom(datagrams: seq<Bytes>, d: nat, got: seq<Bytes>): (seq<Bytes>, Ending)
    requires d <= |datagrams|
  {
    (got + Session(datagrams[d..]).0, Session(datagrams[d..]).1)
  }

  /** One iteration of the receive loop. */
  lemma SessionAt(datagrams: seq<Bytes>, d: nat, got: seq<Bytes>)
    requires d < |datagrams| && |datagrams[d]| > 0
    ensures var (frames, ending) := Receive(datagrams[d]);
      SessionFrom(datagrams, d, got)
        == if GoesOn(ending) then SessionFrom(datagrams, d + 1, got + frames) else (got + frames, ending)
  {
    assert datagrams[d..][1..] == datagrams[d + 1..];
    var (frames, ending) := Receive(datagrams[d]);
    if GoesOn(ending) {
      var rest := Session(datagrams[d + 1..]).0;
      assert got + (frames + rest) == (got + frames) + rest;
    }
  }

  lemma SessionEnds(datagrams: seq<Bytes>, d: nat, got: seq<Bytes>)
    requires d <= |datagrams| && (d < |datagrams| ==> |datagrams[d]| == 0)
    ensures SessionFrom(datagrams, d, got) == (got, Complete)
  {
    assert got + [] == got;
  }

  lemma SessionBegins(datagrams: seq<Bytes>)
    ensures SessionFrom(datagrams, 0, []) == Session(datagrams)
  {
    assert datagrams[0..] == datagrams && [] + Session(datagrams).0 == Session(datagrams).0;
  }

  // ---------------------------------------------------------------- what a session delivers

  /** A frame whose stated size reaches past the end of its buffer. */
  predicate CutOff(f: Bytes) {
    |f| >= HEADER && U16(f, 0) > |f|
  }

  /** The frames of one buffer: each states its own size, but the last one may be cut off by the end of the buffer. */
  predicate Packed(fs: seq<Bytes>) {
    && fs != []
    && (forall i :: 0 <= i < |fs| - 1 ==> SelfSized(fs[i]))
    && (SelfSized(fs[|fs| - 1]) || CutOff(fs[|fs| - 1]))
  }

  /** The closing notification by its bytes. */
  predicate Closes(f: Bytes) {
    |f| >= 4 && f[2] == 0x09 && f[3] == 0x08
  }

  /** Where the first closing notification is, or |fs|. */
  ghost predicate FirstClosing(fs: seq<Bytes>, k: nat) {
    && k <= |fs|
    && (forall i :: 0 <= i < k ==> !Closes(fs[i]))
    && (k < |fs| ==> Closes(fs[k]))
  }

  /** The buffers with these frames. */
  function Buffers(groups: seq<seq<Bytes>>): (r: seq<Bytes>)
    ensures |r| == |groups|
  {
    if groups == [] then [] else [Concat(groups[0])] + Buffers(groups[1..])
  }

  /** All frames of all buffers in order. */
  function AllFrames(groups: seq<seq<Bytes>>): seq<Bytes> {
    if groups == [] then [] else groups[0] + AllFrames(groups[1..])
  }

  /** The first frame of a buffer of several. */
  lemma FirstFrame(fs: seq<Bytes>)
    requires Packed(fs)
    ensures var b := Concat(fs);
      && |b| >= HEADER && U16(b, 0) == U16(fs[0], 0) && U16(b, 2) == U16(fs[0], 2)
      && (Closes(fs[0]) <==> U16(b, 2) == TYPE_FIREWALL_CLOSING)
      && (SelfSized(fs[0]) ==> 0 < |fs[0]| <= |b| && b[..|fs[0]|] == fs[0] && b[|fs[0]|..] == Concat(fs[1..]))
      && (|fs| == 1 ==> b == fs[0])
  {
    var b := Concat(fs);
    assert b == fs[0] + Concat(fs[1..]);
    if |fs| == 1 {
      assert fs[1..] == [];
    }
  }

  /** A first frame that does not close, and those behind it. */
  lemma ReceiveAre(b: Bytes, size: nat, frames: seq<Bytes>, ending: Ending)
    requires |b| >= HEADER && U16(b, 0) == size && 0 < size <= |b| && U16(b, 2) != TYPE_FIREWALL_CLOSING
    requires Receive(b[size..]) == (frames, ending)
    ensures Receive(b) == ([b[..size]] + frames, ending)
  {}

  /** The buffer without its first frame. */
  lemma ClosingRest(fs: seq<Bytes>, k: nat)
    requires Packed(fs) && |fs| > 1 && FirstClosing(fs, k) && !Closes(fs[0])
    ensures k > 0 && SelfSized(fs[0]) && Packed(fs[1..]) && FirstClosing(fs[1..], k - 1)
    ensures fs == [fs[0]] + fs[1..] && (k < |fs| ==> fs[..k + 1] == [fs[0]] + fs[1..][..k])
  {
    assert forall i :: 0 <= i < |fs| - 1 ==> fs[1..][i] == fs[i + 1];
  }

  /** One buffer delivers its frames through the first closing one. */
  lemma {:induction false} ReceivePacked(fs: seq<Bytes>, k: nat)
    requires Packed(fs) && FirstClosing(fs, k)
    ensures var (frames, ending) := Receive(Concat(fs));
      if k < |fs| then frames == fs[..k + 1] && ending == Closed
      else frames == fs && (ending == Complete || ending == Overrun)
  {
    FirstFrame(fs);
    var b := Concat(fs);
    if Closes(fs[0]) {
      assert k == 0 && fs[..1] == [fs[0]];
    } else if |fs| == 1 {
      assert k == 1;
      if SelfSized(fs[0]) {
        assert b[|fs[0]|..] == [];
      }
    } else {
      ClosingRest(fs, k);
      ReceivePacked(fs[1..], k - 1);
      var (frames, ending) := Receive(Concat(fs[1..]));
      ReceiveAre(b, |fs[0]|, frames, ending);
    }
  }

  /** The first closing frame of two lists is in the first, or in the second behind a first without one. */
  lemma ClosingSplit(a: seq<Bytes>, b: seq<Bytes>, k: nat)
    requires FirstClosing(a + b, k)
    ensures k < |a| ==> FirstClosing(a, k) && (a + b)[..k + 1] == a[..k + 1]
    ensures k >= |a| ==>
              && FirstClosing(a, |a|) && FirstClosing(b, k - |a|)
              && (k < |a + b| ==> (a + b)[..k + 1] == a + b[..k - |a| + 1])
  {
    var c := a + b;
    assert forall i :: 0 <= i < |a| ==> c[i] == a[i];
    assert forall i :: 0 <= i < |b| ==> c[|a| + i] == b[i];
  }

  /** One buffer in front of others. */
  lemma SessionFirst(fs: seq<Bytes>, datagrams: seq<Bytes>, j: nat)
    requires Packed(fs) && FirstClosing(fs, j)
    ensures Session([Concat(fs)] + datagrams)
         == if j < |fs| then (fs[..j + 1], Closed) else (fs + Session(datagrams).0, Session(datagrams).1)
  {
    FirstFrame(fs);
    ReceivePacked(fs, j);
    assert ([Concat(fs)] + datagrams)[1..] == datagrams;
  }

  /** A session over such buffers delivers, of all their frames one after the other, exactly the prefix through the
      first closing notification, and ends closed exactly when there is one. */
  lemma {:induction false} SessionDelivers(groups: seq<seq<Bytes>>, k: nat)
    requires (forall g :: g in groups ==> Packed(g)) && FirstClosing(AllFrames(groups), k)
    ensures var all := AllFrames(groups);
      Session(Buffers(groups)) == if k < |all| then (all[..k + 1], Closed) else (all, Complete)
  {
    if groups != [] {
      var first, rest := groups[0], AllFrames(groups[1..]);
      assert first in groups;
      ClosingSplit(first, rest, k);
      SessionFirst(first, Buffers(groups[1..]), if k < |first| then k else |first|);
      if k >= |first| {
        SessionDelivers(groups[1..], k - |first|);
      }
    }
  }

  /** Nothing behind an empty answer of `recv` is delivered. */
  lemma {:induction false} SessionStops(datagrams: seq<Bytes>, more: seq<Bytes>)
    ensures Session(datagrams + [[]] + more) == Session(datagrams)
  {
    var s := datagrams + [[]] + more;
    if datagrams != [] {
      assert s[0] == datagrams[0] && s[1..] == datagrams[1..] + [[]] + more;
      SessionStops(datagrams[1..], more);
    }
  }

  /** The user side of the connection (Shared/ServerConnection.cpp:90-125).  `delivered` is what its delegate got. */
  class ServerConnection {
    var gSocket: int
    /** Whether `receiveThread` is set, and whether a delegate for the end of the connection is. */
    var receiveThread: bool
    const closedDelegate: bool
    var delivered: seq<Bytes>
    var closedCalls: nat

    constructor (socket: int, closedDelegate: bool)
      ensures gSocket == socket && receiveThread && delivered == [] && closedCalls == 0
      ensures this.closedDelegate == closedDelegate
    {
      gSocket := socket;
      receiveThread := true;
      this.closedDelegate := closedDelegate;
      delivered := [];
      closedCalls := 0;
    }

    /** The walk over one received buffer. */
    method WalkBuffer(buffer: Bytes) returns (ending: Ending)
      modifies this`delivered
      ensures delivered == old(delivered) + Receive(buffer).0
      ensures ending == Receive(buffer).1
    {
      var k := 0;
      assert buffer[0..] == buffer;
      while k < |buffer|
        invariant delivered + From(buffer, k).0 == old(delivered) + Receive(buffer).0
        invariant From(buffer, k).1 == Receive(buffer).1
        decreases |buffer| - k
      {
        if k + HEADER > |buffer| {
          FromEnd(buffer, k);
          ending := Truncated;
          return;
        }
        FromStep(buffer, k, delivered);
        if U16(buffer, k + 2) == TYPE_FIREWALL_CLOSING {
          delivered := delivered + [FrameAt(buffer, k)];
          ending := Closed;
          return;
        }
        if U16(buffer, k) == 0 {
          ending := Endless;
          return;
        }
        delivered := delivered + [FrameAt(buffer, k)];
        k := k + U16(buffer, k);
      }
      FromEnd(buffer, k);
      ending := if k > |buffer| then Overrun else Complete;
    }

    /** The receive loop; `goal` is what there is to deliver. */
    method ReceiveAll(datagrams: seq<Bytes>, ghost goal: (seq<Bytes>, Ending)) returns (ending: Ending)
      requires SessionFrom(datagrams, 0, []) == goal
      modifies this`delivered
      ensures delivered == old(delivered) + goal.0 && ending == goal.1
    {
      var d := 0;
      ghost var got: seq<Bytes> := [];
      ending := Complete;
      while d < |datagrams| && |datagrams[d]| > 0
        invariant d <= |datagrams|
        invariant delivered == old(delivered) + got && ending == Complete
        invariant SessionFrom(datagrams, d, got) == goal
      {
        SessionAt(datagrams, d, got);
        ending := WalkBuffer(datagrams[d]);
        got := got + Receive(datagrams[d]).0;
        if !GoesOn(ending) {
          return;
        }
        ending := Complete;
        d := d + 1;
      }
      SessionEnds(datagrams, d, got);
    }

    /** The receive thread: `datagrams` are the answers of `recv`, one buffer each; then the socket is closed. */
    method ReceiveThread(datagrams: seq<Bytes>) returns (ending: Ending)
      modifies this
      ensures delivered == old(delivered) + Session(datagrams).0
      ensures ending == Session(datagrams).1
      ensures gSocket == -1 && !receiveThread
      ensures closedCalls == old(closedCalls) + if closedDelegate then 1 else 0
    {
      SessionBegins(datagrams);
      ending := ReceiveAll(datagrams, Session(datagrams));
      HangUp();
    }

    /** The socket is closed, and the delegate hears of it. */
    method HangUp()
      modifies this`gSocket, this`receiveThread, this`closedCalls
      ensures gSocket == -1 && !receiveThread && closedCalls == old(closedCalls) + if closedDelegate then 1 else 0
    {
      gSocket := -1;
      receiveThread := false;
      if closedDelegate {
        closedCalls := closedCalls + 1;
      }
    }
  }
}
