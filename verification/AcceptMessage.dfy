/** The message with two addresses of variable length (Shared/messageType.h:87-106 and 492-529,
    Kext/messages.cpp:254-266): its size, its writing and its reading back. */
module AcceptMessage {
  import opened Common
  import opened RuleOrder
  import opened Framing

  /** A socket address as its bytes: the first is the length, the second the family.  A length of 0 makes an address
      without any byte. */
  type Address = a: Bytes | |a| < 256 && (a != [] ==> a[0] == |a|)

  const TYPE_SFLT_ACCEPT: UInt16 := 0x2011

  /** Where the compiler puts the 64-bit fields, and the size it gives the structure. */
  datatype Layout = Layout(listenAt: nat, total: nat)

  /** 64-bit fields aligned to 8, and to 4. */
  const LAYOUT_64 := Layout(16, 40)
  const LAYOUT_32 := Layout(12, 32)

  function DataAt(y: Layout): nat {
    y.listenAt + 16
  }

  predicate Known(y: Layout) {
    y == LAYOUT_64 || y == LAYOUT_32
  }

  /** What `SockAddress::Copy` writes: a null address becomes the unspecified one of two bytes. */
  function Copied(from: Option<Address>): Bytes {
    match from
    case None => [2, 0]
    case Some(a) => a
  }

  /** `GetNeededSize`, with the truncation of its result to 16 bits. */
  function NeededSize(y: Layout, local: Option<Address>, remote: Option<Address>): UInt16
    requires y.total >= 4
  {
    (y.total + |Copied(local)| + |Copied(remote)| - 4) % 0x1_0000
  }

  /** The truncation never happens, and the two addresses end inside the message. */
  lemma EverythingFits(y: Layout, local: Option<Address>, remote: Option<Address>)
    requires Known(y)
    ensures NeededSize(y, local, remote) == (if y == LAYOUT_64 then 36 else 28) + |Copied(local)| + |Copied(remote)|
    ensures DataAt(y) + |Copied(local)| + |Copied(remote)| <= NeededSize(y, local, remote) <= 546
  {}

  /** A buffer after some bytes were written at a place. */
  function Write(b: Bytes, at: nat, bytes: Bytes): (r: Bytes)
    requires at + |bytes| <= |b|
    ensures |r| == |b|
    ensures r[at..at + |bytes|] == bytes
    ensures r[..at] == b[..at] && r[at + |bytes|..] == b[at + |bytes|..]
  {
    b[..at] + bytes + b[at + |bytes|..]
  }

  lemma WriteElsewhere(b: Bytes, at: nat, bytes: Bytes, k: nat)
    requires at + |bytes| <= |b| && k < |b| && (k < at || at + |bytes| <= k)
    ensures Write(b, at, bytes)[k] == b[k]
  {}

  /** `memcpy`. */
  method WriteBytes(buffer: array<Byte>, at: nat, bytes: Bytes)
    requires at + |bytes| <= buffer.Length
    modifies buffer
    ensures buffer[..] == Write(old(buffer[..]), at, bytes)
  {
    ghost var before := buffer[..];
    var k := 0;
    while k < |bytes|
      invariant k <= |bytes|
      invariant buffer[..] == Write(before, at, bytes[..k])
    {
      buffer[at + k] := bytes[k];
      k := k + 1;
    }
    assert bytes[..k] == bytes;
  }

  /** `SockAddress::Copy` answers how many bytes it wrote.  What it wrote reads back as the address, a null one as the
      unspecified address, unless the address has no byte at all; nothing else is touched. */
  method Copy(buffer: array<Byte>, at: nat, from: Option<Address>) returns (written: nat)
    requires at + |Copied(from)| <= buffer.Length
    modifies buffer
    ensures buffer[..] == Write(old(buffer[..]), at, Copied(from)) && written == |Copied(from)|
    ensures from != Some([]) ==> AddressAt(buffer[..], at) == Some(Copied(from)) && written == buffer[at]
    ensures from == Some([]) ==> written == 0 && buffer[..] == old(buffer[..])
  {
    ghost var before := buffer[..];
    if from.None? {
      buffer[at + 1] := 0;
      buffer[at] := 2;
      written := buffer[at];
      assert buffer[..] == Write(before, at, Copied(from));
    } else {
      WriteBytes(buffer, at, from.value);
      written := |from.value|;
    }
    if Copied(from) != [] {
      AddressFound(buffer[..], at, Copied(from));
    }
  }

  datatype Header = Header(pid: UInt32, uid: UInt32, listenLow: UInt32, listenHigh: UInt32, soLow: UInt32,
                           soHigh: UInt32)

  /** The fixed fields, in the order of the structure. */
  function WriteHeader(b: Bytes, y: Layout, size: UInt16, h: Header): (r: Bytes)
    requires Known(y) && |b| >= DataAt(y)
    ensures |r| == |b| && r[DataAt(y)..] == b[DataAt(y)..]
    ensures U16(r, 0) == size && U16(r, 2) == TYPE_SFLT_ACCEPT && U32(r, 4) == h.pid && U32(r, 8) == h.uid
  {
    var front := Bytes16(size) + Bytes16(TYPE_SFLT_ACCEPT) + Bytes32(h.pid) + Bytes32(h.uid);
    var sockets := Bytes32(h.listenLow) + Bytes32(h.listenHigh) + Bytes32(h.soLow) + Bytes32(h.soHigh);
    var b1 := Write(b, 0, front);
    var r := Write(b1, y.listenAt, sockets);
    assert r[0..12] == front by { WriteBehind(b1, y.listenAt, sockets, 0, 12); }
    assert front[0..12] == front;
    SameFront(front, r, 12);
    assert b1[DataAt(y)..] == b1[12..][DataAt(y) - 12..];
    assert b[DataAt(y)..] == b[12..][DataAt(y) - 12..];
    r
  }

  /** The whole message: header, local address, remote address, and whatever the memory held behind them. */
  function Written(b: Bytes, y: Layout, size: UInt16, h: Header, local: Option<Address>, remote: Option<Address>)
    : (r: Bytes)
    requires Known(y) && |b| >= DataAt(y) + |Copied(local)| + |Copied(remote)|
    ensures |r| == |b|
  {
    var at := DataAt(y);
    Write(Write(WriteHeader(b, y, size, h), at, Copied(local)), at + |Copied(local)|, Copied(remote))
  }

  /** The fixed fields are stored. */
  method StoreHeader(raw: array<Byte>, y: Layout, size: UInt16, h: Header)
    requires Known(y) && raw.Length >= DataAt(y)
    modifies raw
    ensures raw[..] == WriteHeader(old(raw[..]), y, size, h)
  {
    var front := Bytes16(size) + Bytes16(TYPE_SFLT_ACCEPT) + Bytes32(h.pid) + Bytes32(h.uid);
    var sockets := Bytes32(h.listenLow) + Bytes32(h.listenHigh) + Bytes32(h.soLow) + Bytes32(h.soHigh);
    WriteBytes(raw, 0, front);
    WriteBytes(raw, y.listenAt, sockets);
  }

  /** The two addresses are stored one behind the other. */
  method StoreAddresses(raw: array<Byte>, at: nat, local: Option<Address>, remote: Option<Address>)
    requires at + |Copied(local)| + |Copied(remote)| <= raw.Length
    modifies raw
    ensures raw[..] == Write(Write(old(raw[..]), at, Copied(local)), at + |Copied(local)|, Copied(remote))
  {
    ghost var before := raw[..];
    var offset := Copy(raw, at, local);
    ghost var between := raw[..];
    assert between == Write(before, at, Copied(local)) && offset == |Copied(local)|;
    var last := Copy(raw, at + offset, remote);
    assert raw[..] == Write(between, at + offset, Copied(remote));
  }

  /** `CreateSfltAccept` and `Init`: the buffer has the needed size, every write stays inside it, and it is one frame
      with the two addresses behind the fixed fields. */
  method CreateSfltAccept(y: Layout, h: Header, local: Option<Address>, remote: Option<Address>)
    returns (raw: array<Byte>, ghost memory: Bytes)
    requires Known(y)
    ensures raw.Length == NeededSize(y, local, remote) == |memory|
    ensures DataAt(y) + |Copied(local)| + |Copied(remote)| <= |memory|
    ensures raw[..] == Written(memory, y, NeededSize(y, local, remote), h, local, remote)
    ensures SelfSized(raw[..])
    ensures var at, mid := DataAt(y), DataAt(y) + |Copied(local)|;
      raw[..][at..mid] == Copied(local) && raw[..][mid..mid + |Copied(remote)|] == Copied(remote)
  {
    EverythingFits(y, local, remote);
    var size := NeededSize(y, local, remote);
    raw := new Byte[size];
    memory := raw[..];
    StoreHeader(raw, y, size, h);
    StoreAddresses(raw, DataAt(y), local, remote);
    assert raw[..] == Written(memory, y, size, h, local, remote);
    WrittenParts(memory, y, size, h, local, remote);
    AcceptIsFrame(memory, y, h, local, remote);
  }

  // ---------------------------------------------------------------- reading

  /** The address at a place: as many bytes as its first one says. */
  function AddressAt(b: Bytes, at: nat): Option<Bytes> {
    if at < |b| && at + b[at] <= |b| then Some(b[at..at + b[at]]) else None
  }

  /** `GetLocal` and `GetRemote`. */
  function GetLocal(b: Bytes, y: Layout): Option<Bytes> {
    AddressAt(b, DataAt(y))
  }

  function GetRemote(b: Bytes, y: Layout): Option<Bytes> {
    if DataAt(y) < |b| then AddressAt(b, DataAt(y) + b[DataAt(y)]) else None
  }

  lemma AddressEmpty(b: Bytes, at: nat)
    ensures AddressAt(b, at) == Some([]) <==> at < |b| && b[at] == 0
  {
    if at < |b| && at + b[at] <= |b| {
      assert |b[at..at + b[at]]| == b[at];
    }
  }

  lemma HeaderKeeps(b: Bytes, y: Layout, size: UInt16, h: Header, k: nat)
    requires Known(y) && DataAt(y) <= k < |b|
    ensures WriteHeader(b, y, size, h)[k] == b[k]
  {
    var d := DataAt(y);
    assert WriteHeader(b, y, size, h)[d..][k - d] == b[d..][k - d];
  }

  lemma AddressFound(b: Bytes, at: nat, a: Address)
    requires a != [] && at + |a| <= |b| && b[at..at + |a|] == a
    ensures AddressAt(b, at) == Some(a) && b[at] == |a|
  {
    assert b[at..at + |a|][0] == b[at];
  }

  /** Where two parts are that are written one behind the other; what lies in front of them stays. */
  lemma TwoWrites(b: Bytes, at: nat, first: Bytes, second: Bytes)
    requires at + |first| + |second| <= |b|
    ensures var mid := at + |first|; var r := Write(Write(b, at, first), mid, second);
      r[at..mid] == first && r[mid..mid + |second|] == second && r[0..at] == b[0..at]
  {
    var b2 := Write(b, at, first);
    var mid := at + |first|;
    WriteBehind(b2, mid, second, at, mid);
    WriteBehind(b, at, first, 0, at);
    WriteBehind(b2, mid, second, 0, at);
  }

  /** Where the two addresses are in the finished message. */
  lemma WrittenParts(b: Bytes, y: Layout, size: UInt16, h: Header, local: Option<Address>, remote: Option<Address>)
    requires Known(y) && |b| >= DataAt(y) + |Copied(local)| + |Copied(remote)|
    ensures var r := Written(b, y, size, h, local, remote);
      var at := DataAt(y); var mid := at + |Copied(local)|;
      && r[at..mid] == Copied(local) && r[mid..mid + |Copied(remote)|] == Copied(remote)
      && U16(r, 0) == size && U16(r, 2) == TYPE_SFLT_ACCEPT && U32(r, 4) == h.pid && U32(r, 8) == h.uid
  {
    var b1 := WriteHeader(b, y, size, h);
    TwoWrites(b1, DataAt(y), Copied(local), Copied(remote));
    SameFront(b1, Written(b, y, size, h, local, remote), DataAt(y));
  }

  /** A write leaves what lies in front of it. */
  lemma WriteBehind(b: Bytes, at: nat, bytes: Bytes, from: nat, to: nat)
    requires at + |bytes| <= |b| && from <= to <= at
    ensures Write(b, at, bytes)[from..to] == b[from..to]
  {
    assert forall k :: from <= k < to ==> Write(b, at, bytes)[k] == Write(b, at, bytes)[..at][k] == b[..at][k];
  }

  lemma SameFront(a: Bytes, b: Bytes, n: nat)
    requires 12 <= n <= |a| && n <= |b| && a[0..n] == b[0..n]
    ensures U16(a, 0) == U16(b, 0) && U16(a, 2) == U16(b, 2) && U32(a, 4) == U32(b, 4) && U32(a, 8) == U32(b, 8)
  {
    assert forall k :: 0 <= k < n ==> a[k] == a[0..n][k] && b[k] == b[0..n][k];
  }

  /** Where the two sockets are in the fixed fields. */
  lemma HeaderSockets(b: Bytes, y: Layout, size: UInt16, h: Header)
    requires Known(y) && |b| >= DataAt(y)
    ensures var r, at := WriteHeader(b, y, size, h), y.listenAt;
      NumberAt(r, at, h.listenLow) && NumberAt(r, at + 4, h.listenHigh)
      && NumberAt(r, at + 8, h.soLow) && NumberAt(r, at + 12, h.soHigh)
  {
    var r, at := WriteHeader(b, y, size, h), y.listenAt;
    var sockets := Bytes32(h.listenLow) + Bytes32(h.listenHigh) + Bytes32(h.soLow) + Bytes32(h.soHigh);
    assert r[at..at + 16] == sockets;
    NumberInside(r, at, sockets, 0, Bytes32(h.listenLow), h.listenLow);
    NumberInside(r, at, sockets, 4, Bytes32(h.listenHigh), h.listenHigh);
    NumberInside(r, at, sockets, 8, Bytes32(h.soLow), h.soLow);
    NumberInside(r, at, sockets, 12, Bytes32(h.soHigh), h.soHigh);
  }

  lemma NumberInside(r: Bytes, at: nat, part: Bytes, k: nat, bytes: Bytes, n: UInt32)
    requires at + |part| <= |r| && r[at..at + |part|] == part
    requires k + 4 <= |part| && part[k..k + 4] == bytes && |bytes| == 4 && U32(bytes, 0) == n
    ensures NumberAt(r, at + k, n)
  {
    assert forall i :: 0 <= i < 4 ==> r[at + k + i] == part[k + i] == bytes[i];
  }

  /** The fixed fields byte by byte: size, type 0x2011, process, user, and from a place on the listening socket and the
      socket. */
  predicate HeaderAt(r: Bytes, at: nat, size: UInt16, h: Header) {
    && |r| >= 12 && r[0] as int + 256 * r[1] as int == size && r[2] == 0x11 && r[3] == 0x20
    && NumberAt(r, 4, h.pid) && NumberAt(r, 8, h.uid)
    && NumberAt(r, at, h.listenLow) && NumberAt(r, at + 4, h.listenHigh)
    && NumberAt(r, at + 8, h.soLow) && NumberAt(r, at + 12, h.soHigh)
  }

  lemma HeaderBytes(b: Bytes, y: Layout, size: UInt16, h: Header)
    requires Known(y) && |b| >= DataAt(y)
    ensures HeaderAt(WriteHeader(b, y, size, h), y.listenAt, size, h)
  {
    HeaderSockets(b, y, size, h);
  }

  lemma SameHeader(a: Bytes, b: Bytes, n: nat, at: nat, size: UInt16, h: Header)
    requires 12 <= n <= |a| && n <= |b| && a[0..n] == b[0..n] && at + 16 <= n && HeaderAt(a, at, size, h)
    ensures HeaderAt(b, at, size, h)
  {
    assert forall i :: 0 <= i < n ==> a[i] == a[0..n][i] == b[0..n][i] == b[i];
  }

  /** Every field of the finished message at its place, on either layout: the sockets begin at byte 16 or 12, and the
      addresses 16 bytes behind. */
  lemma AcceptBytes(b: Bytes, y: Layout, size: UInt16, h: Header, local: Option<Address>, remote: Option<Address>)
    requires Known(y) && |b| >= DataAt(y) + |Copied(local)| + |Copied(remote)|
    ensures var r := Written(b, y, size, h, local, remote);
      var at := if y == LAYOUT_64 then 16 else 12; var mid := at + 16 + |Copied(local)|;
      && HeaderAt(r, at, size, h)
      && r[at + 16..mid] == (if local.None? then [2, 0] else local.value)
      && r[mid..mid + |Copied(remote)|] == (if remote.None? then [2, 0] else remote.value)
  {
    var b1 := WriteHeader(b, y, size, h);
    HeaderBytes(b, y, size, h);
    TwoWrites(b1, DataAt(y), Copied(local), Copied(remote));
    SameHeader(b1, Written(b, y, size, h, local, remote), DataAt(y), y.listenAt, size, h);
  }

  /** Two addresses one after the other read back if and only if the first has a byte. */
  lemma BothRead(r: Bytes, y: Layout, a: Address, c: Address)
    requires Known(y) && DataAt(y) + |a| + |c| <= |r| && c != []
    requires var at, mid := DataAt(y), DataAt(y) + |a|; r[at..mid] == a && r[mid..mid + |c|] == c
    ensures GetLocal(r, y) == Some(a) && GetRemote(r, y) == Some(c) <==> a != []
  {
    AddressFound(r, DataAt(y) + |a|, c);
    if a != [] {
      AddressFound(r, DataAt(y), a);
    }
  }

  /** With a remote address that is null or has a length, both addresses read back as they were written, a null one
      as the unspecified address, if and only if the local one is null or has a length too. */
  lemma AcceptRoundTrip(b: Bytes, y: Layout, size: UInt16, h: Header, local: Option<Address>, remote: Option<Address>)
    requires Known(y) && |b| >= DataAt(y) + |Copied(local)| + |Copied(remote)|
    requires remote != Some([])
    ensures var r := Written(b, y, size, h, local, remote);
      GetLocal(r, y) == Some(Copied(local)) && GetRemote(r, y) == Some(Copied(remote)) <==> local != Some([])
  {
    WrittenParts(b, y, size, h, local, remote);
    BothRead(Written(b, y, size, h, local, remote), y, Copied(local), Copied(remote));
  }

  /** A local address of length 0 is read back as the remote one. */
  lemma EmptyLocalReadsRemote(b: Bytes, y: Layout, size: UInt16, h: Header, remote: Option<Address>)
    requires Known(y) && |b| >= DataAt(y) + |Copied(remote)| && remote != Some([])
    ensures GetLocal(Written(b, y, size, h, Some([]), remote), y) == Some(Copied(remote))
  {
    WrittenParts(b, y, size, h, Some([]), remote);
    AddressFound(Written(b, y, size, h, Some([]), remote), DataAt(y), Copied(remote));
  }

  /** Behind the second address the memory is as it was. */
  lemma WrittenTail(b: Bytes, y: Layout, size: UInt16, h: Header, local: Option<Address>, remote: Option<Address>,
                    k: nat)
    requires Known(y) && DataAt(y) + |Copied(local)| + |Copied(remote)| <= k < |b|
    ensures Written(b, y, size, h, local, remote)[k] == b[k]
  {
    var at := DataAt(y);
    var b1 := WriteHeader(b, y, size, h);
    HeaderKeeps(b, y, size, h, k);
    WriteElsewhere(b1, at, Copied(local), k);
    WriteElsewhere(Write(b1, at, Copied(local)), at + |Copied(local)|, Copied(remote), k);
  }

  lemma NothingBehind(r: Bytes, y: Layout, a: Address)
    requires Known(y) && a != [] && DataAt(y) + |a| <= |r| && r[DataAt(y)..DataAt(y) + |a|] == a
    ensures var mid := DataAt(y) + |a|; GetRemote(r, y) == Some([]) <==> mid < |r| && r[mid] == 0
  {
    AddressFound(r, DataAt(y), a);
    AddressEmpty(r, DataAt(y) + |a|);
  }

  /** A remote address of length 0 reads back only if the memory behind the local one happened to hold a 0. */
  lemma EmptyRemoteReadsMemory(b: Bytes, y: Layout, size: UInt16, h: Header, local: Option<Address>)
    requires Known(y) && local != Some([]) && |b| >= DataAt(y) + |Copied(local)|
    ensures var mid := DataAt(y) + |Copied(local)|;
      GetRemote(Written(b, y, size, h, local, Some([])), y) == Some([]) <==> mid < |b| && b[mid] == 0
  {
    WrittenParts(b, y, size, h, local, Some([]));
    var mid := DataAt(y) + |Copied(local)|;
    NothingBehind(Written(b, y, size, h, local, Some([])), y, Copied(local));
    if mid < |b| { WrittenTail(b, y, size, h, local, Some([]), mid); }
  }

  /** The finished message is one self-sized frame. */
  lemma AcceptIsFrame(b: Bytes, y: Layout, h: Header, local: Option<Address>, remote: Option<Address>)
    requires Known(y) && |b| == NeededSize(y, local, remote)
    ensures DataAt(y) + |Copied(local)| + |Copied(remote)| <= |b|
    ensures SelfSized(Written(b, y, NeededSize(y, local, remote), h, local, remote))
  {
    EverythingFits(y, local, remote);
    WrittenParts(b, y, NeededSize(y, local, remote), h, local, remote);
  }
}
