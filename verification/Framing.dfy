/** Message framing: the writer (CNode::BeginMessage, EndMessage, src/net.h), the header
    (CMessageHeader, src/protocol.cpp) and the reader (ProcessMessages, src/main.cpp). */
module Framing {
  import opened Basics

  const START_SIZE: nat := 4
  const COMMAND_SIZE: nat := 12
  const SIZE_OFFSET: nat := 16
  const CHECKSUM_OFFSET: nat := 20
  const HEADER_SIZE: nat := 24
  const MAX_SIZE: nat := 0x0200_0000

  type Word = s: seq<Byte> | |s| == 4 witness [0, 0, 0, 0]

  /** The network's message start and the first four bytes of the payload's hash. */
  datatype Net = Net(start: Word, checksum: seq<Byte> -> Word)

  datatype Message = Message(command: seq<Byte>, payload: seq<Byte>)

  /** Four bytes, lowest first, of a 32-bit number. */
  function LE4(n: nat): Word { [n % 256, n / 0x100 % 256, n / 0x1_0000 % 256, n / 0x100_0000 % 256] }

  function FromLE4(b: Word): nat
  {
    b[0] as int + 0x100 * b[1] as int + 0x1_0000 * b[2] as int + 0x100_0000 * b[3] as int
  }

  lemma {:induction false} LE4RoundTrip(n: nat)
    requires n < 0x1_0000_0000
    ensures FromLE4(LE4(n)) == n
  {
    assert n / 0x1_0000 == n / 0x100 / 256 && n / 0x100_0000 == n / 0x1_0000 / 256;
  }

  // ------------------------------------------------------------------------------------------
  // Headers
  // ------------------------------------------------------------------------------------------

  /** strncpy into twelve bytes: cut, or filled with zeros. */
  function Pad(command: seq<Byte>): (c: seq<Byte>)
    ensures |c| == COMMAND_SIZE
  {
    if |command| >= COMMAND_SIZE then command[..COMMAND_SIZE] else command + Zeros(COMMAND_SIZE - |command|)
  }

  function Header(net: Net, command: seq<Byte>, nSize: nat, checksum: Word): (h: seq<Byte>)
    ensures |h| == HEADER_SIZE
  {
    net.start + Pad(command) + LE4(nSize) + checksum
  }

  function Frame(net: Net, m: Message): seq<Byte>
  {
    Header(net, m.command, |m.payload|, net.checksum(m.payload)) + m.payload
  }

  predicate Printable(b: Byte) { 0x20 <= b <= 0x7E }

  /** Printable characters up to the first zero, and only zeros from there. */
  predicate CommandField(c: seq<Byte>) {
    exists z :: 0 <= z <= |c| && ZerosFrom(c, z)
  }

  predicate ZerosFrom(c: seq<Byte>, z: nat)
    requires z <= |c|
  {
    (forall i :: 0 <= i < z ==> Printable(c[i])) && (forall i :: z <= i < |c| ==> c[i] == 0)
  }

  function StrLen(c: seq<Byte>, i: nat): (z: nat)
    requires i <= |c|
    ensures i <= z <= |c| && (forall k :: i <= k < z ==> c[k] != 0) && (z < |c| ==> c[z] == 0)
    decreases |c| - i
  {
    if i == |c| || c[i] == 0 then i else StrLen(c, i + 1)
  }

  /** The fields of the header at the front of a buffer. */
  function CommandBytes(h: seq<Byte>): seq<Byte>
    requires |h| >= HEADER_SIZE
  {
    h[START_SIZE..SIZE_OFFSET]
  }

  function GetCommand(h: seq<Byte>): seq<Byte>
    requires |h| >= HEADER_SIZE
  {
    CommandBytes(h)[..StrLen(CommandBytes(h), 0)]
  }

  function MessageSize(h: seq<Byte>): nat
    requires |h| >= HEADER_SIZE
  {
    FromLE4(h[SIZE_OFFSET..CHECKSUM_OFFSET])
  }

  function Checksum(h: seq<Byte>): Word
    requires |h| >= HEADER_SIZE
  {
    h[CHECKSUM_OFFSET..HEADER_SIZE]
  }

  predicate HeaderValid(net: Net, h: seq<Byte>)
    requires |h| >= HEADER_SIZE
  {
    h[..START_SIZE] == net.start && CommandField(CommandBytes(h)) && MessageSize(h) <= MAX_SIZE
  }

  method IsValid(net: Net, h: seq<Byte>) returns (ok: bool)
    requires |h| >= HEADER_SIZE
    ensures ok <==> HeaderValid(net, h)
  {
    if h[..START_SIZE] != net.start { return false; }
    var c := CommandBytes(h);
    var p := 0;
    ok := true;
    while p < |c| && c[p] != 0
      invariant 0 <= p <= |c| && forall i :: 0 <= i < p ==> Printable(c[i])
    {
      if !Printable(c[p]) {
        assert forall z :: 0 <= z <= |c| && ZerosFrom(c, z) ==> false by {
          forall z | 0 <= z <= |c| ensures !ZerosFrom(c, z) { assert z > p || c[p] != 0; }
        }
        return false;
      }
      p := p + 1;
    }
    var z := p;
    while p < |c|
      invariant z <= p <= |c| && forall i :: z <= i < p ==> c[i] == 0
    {
      if c[p] != 0 {
        forall y | 0 <= y <= |c| ensures !ZerosFrom(c, y) { assert y > p ==> c[z] == 0; }
        return false;
      }
      p := p + 1;
    }
    assert ZerosFrom(c, z);
    if MessageSize(h) > MAX_SIZE { return false; }
  }

  /** A command that fits and is printable comes back from the header written for it. */
  lemma {:induction false} HeaderRoundTrip(net: Net, command: seq<Byte>, nSize: nat, checksum: Word, tail: seq<Byte>)
    requires |command| <= COMMAND_SIZE && (forall i :: 0 <= i < |command| ==> Printable(command[i]))
    requires nSize <= MAX_SIZE
    ensures var h := Header(net, command, nSize, checksum) + tail;
      && HeaderValid(net, h) && GetCommand(h) == command && MessageSize(h) == nSize && Checksum(h) == checksum
      && h[HEADER_SIZE..] == tail && h[..START_SIZE] == net.start
  {
    var h := Header(net, command, nSize, checksum) + tail;
    var c := Pad(command);
    assert CommandBytes(h) == c && h[SIZE_OFFSET..CHECKSUM_OFFSET] == LE4(nSize) &&
      h[CHECKSUM_OFFSET..HEADER_SIZE] == checksum;
    assert h[..START_SIZE] == net.start && h[HEADER_SIZE..] == tail;
    LE4RoundTrip(nSize);
    assert ZerosFrom(c, |command|);
    assert c[..|command|] == command;
    var z := StrLen(c, 0);
    assert |command| < COMMAND_SIZE ==> c[|command|] == 0;
    assert z < |command| ==> Printable(c[z]);
    assert z == |command|;
  }

  // ------------------------------------------------------------------------------------------
  // Reading
  // ------------------------------------------------------------------------------------------

  predicate StartAt(start: Word, buf: seq<Byte>, i: nat) { i + START_SIZE <= |buf| && buf[i..i + START_SIZE] == start }

  /** Where the message start first occurs at or after i; the end if it does not. */
  function Search(start: Word, buf: seq<Byte>, i: nat): (p: nat)
    requires i <= |buf|
    ensures i <= p <= |buf| && (p < |buf| ==> StartAt(start, buf, p))
    ensures forall k :: i <= k < p ==> !StartAt(start, buf, k)
    decreases |buf| - i
  {
    if i == |buf| || StartAt(start, buf, i) then i else Search(start, buf, i + 1)
  }

  function LastOf(buf: seq<Byte>): seq<Byte> { if |buf| > HEADER_SIZE then buf[|buf| - HEADER_SIZE..] else buf }

  /** What reading a buffer dispatches, and what it leaves. */
  function Parse(net: Net, buf: seq<Byte>): (r: (seq<Message>, seq<Byte>))
    decreases |buf|
  {
    var p := Search(net.start, buf, 0);
    if |buf| - p < HEADER_SIZE then ([], LastOf(buf)) else Next(net, buf[p..])
  }

  /** The buffer begins with a message start and has a whole header. */
  function Next(net: Net, buf: seq<Byte>): (seq<Message>, seq<Byte>)
    requires |buf| >= HEADER_SIZE
    decreases |buf|, 0
  {
    var body := buf[HEADER_SIZE..];
    if !HeaderValid(net, buf) then Parse(net, body)
    else if MessageSize(buf) > |body| then ([], buf)
    else if net.checksum(body[..MessageSize(buf)]) != Checksum(buf) then Parse(net, body)
    else Prepend(Message(GetCommand(buf), body[..MessageSize(buf)]), Parse(net, body[MessageSize(buf)..]))
  }

  function Prepend(m: Message, r: (seq<Message>, seq<Byte>)): (seq<Message>, seq<Byte>) { ([m] + r.0, r.1) }

  method FindStart(start: Word, buf: seq<Byte>) returns (p: nat)
    ensures p == Search(start, buf, 0)
  {
    p := 0;
    while p < |buf| && !StartAt(start, buf, p)
      invariant p <= |buf| && Search(start, buf, p) == Search(start, buf, 0)
    {
      p := p + 1;
    }
  }

  /** The receiving half of CNode; `dispatched` lists the calls of ProcessMessage. The send buffer is
      taken to have room, since a full one only postpones the loop. */
  class Receiver {
    const net: Net
    var vRecv: seq<Byte>
    var dispatched: seq<Message>

    constructor (net: Net)
      ensures this.net == net && vRecv == [] && dispatched == []
    {
      this.net := net;
      vRecv, dispatched := [], [];
    }

    method ProcessMessages()
      modifies this
      ensures dispatched == old(dispatched) + Parse(net, old(vRecv)).0 && vRecv == Parse(net, old(vRecv)).1
    {
      hide Next, HeaderValid, GetCommand, MessageSize, Checksum;
      if vRecv == [] {
        assert Parse(net, []) == ([], []);
        return;
      }
      ghost var all := Parse(net, vRecv);
      var fMore := true;
      while fMore
        invariant fMore ==> dispatched + Parse(net, vRecv).0 == old(dispatched) + all.0 && Parse(net, vRecv).1 == all.1
        invariant !fMore ==> dispatched == old(dispatched) + all.0 && vRecv == all.1
        decreases fMore, |vRecv|
      {
        fMore := ReadOne();
      }
    }

    /** One round of the loop of ProcessMessages; false where it breaks off. */
    method ReadOne() returns (fMore: bool)
      modifies this
      ensures fMore ==> |vRecv| < |old(vRecv)|
      ensures fMore ==> dispatched + Parse(net, vRecv).0 == old(dispatched) + Parse(net, old(vRecv)).0
                        && Parse(net, vRecv).1 == Parse(net, old(vRecv)).1
      ensures !fMore ==> dispatched == old(dispatched) + Parse(net, old(vRecv)).0 && vRecv == Parse(net, old(vRecv)).1
    {
      hide HeaderValid, GetCommand, MessageSize, Checksum, Search;
      var pstart := FindStart(net.start, vRecv);
      if |vRecv| - pstart < HEADER_SIZE {
        if |vRecv| > HEADER_SIZE { vRecv := vRecv[|vRecv| - HEADER_SIZE..]; }
        return false;
      }
      vRecv := vRecv[pstart..];
      var hdr := vRecv;
      vRecv := vRecv[HEADER_SIZE..];
      var fValid := IsValid(net, hdr);
      if !fValid { return true; }
      var nMessageSize := MessageSize(hdr);
      if nMessageSize > |vRecv| {
        vRecv := hdr;
        return false;
      }
      if net.checksum(vRecv[..nMessageSize]) != Checksum(hdr) { return true; }
      var vMsg := vRecv[..nMessageSize];
      vRecv := vRecv[nMessageSize..];
      dispatched := dispatched + [Message(GetCommand(hdr), vMsg)];
      return true;
    }
  }

  // ------------------------------------------------------------------------------------------
  // What is dispatched, byte by byte
  // ------------------------------------------------------------------------------------------

  /** At an offset of the buffer stand the message start, a printable command filled up with zeros, and
      a size within the limit, lowest byte first. */
  ghost predicate HeaderAt(net: Net, buf: seq<Byte>, at: nat, command: seq<Byte>, size: nat) {
    && at + 24 <= |buf| && buf[at..at + 4] == net.start
    && |command| <= 12 && (forall i :: 0 <= i < |command| ==> 0x20 <= command[i] <= 0x7E)
    && buf[at + 4..at + 16] == command + Zeros(12 - |command|)
    && size <= 0x0200_0000
    && size == buf[at + 16] as int + 0x100 * buf[at + 17] as int + 0x1_0000 * buf[at + 18] as int
               + 0x100_0000 * buf[at + 19] as int
  }

  /** There the message stands whole: such a header, the payload behind it, and the payload's checksum
      in the header. */
  ghost predicate FrameAt(net: Net, buf: seq<Byte>, at: nat, m: Message) {
    && HeaderAt(net, buf, at, m.command, |m.payload|)
    && at + 24 + |m.payload| <= |buf| && buf[at + 24..at + 24 + |m.payload|] == m.payload
    && buf[at + 20..at + 24] == net.checksum(m.payload)
  }

  lemma {:induction false} CommandUnique(c: seq<Byte>, a: seq<Byte>)
    requires |a| <= |c| == COMMAND_SIZE && c == a + Zeros(COMMAND_SIZE - |a|)
    requires forall i :: 0 <= i < |a| ==> Printable(a[i])
    ensures CommandField(c) && c[..StrLen(c, 0)] == a
  {
    var z := StrLen(c, 0);
    assert forall i :: 0 <= i < |a| ==> c[i] == a[i];
    assert |a| < |c| ==> c[|a|] == 0;
    assert z >= |a|;
    assert z == |a| && ZerosFrom(c, z);
  }

  lemma {:induction false} CommandIs(c: seq<Byte>)
    requires |c| == COMMAND_SIZE && CommandField(c)
    ensures var z := StrLen(c, 0); (forall i :: 0 <= i < z ==> Printable(c[i])) && c == c[..z] + Zeros(COMMAND_SIZE - z)
  {
    var z := StrLen(c, 0);
    var y :| 0 <= y <= |c| && ZerosFrom(c, y);
    assert y < |c| ==> c[y] == 0;
    assert z < |c| ==> c[z] == 0;
    assert forall i :: 0 <= i < y ==> c[i] != 0;
    assert z >= y && z <= y;
  }

  /** The header tests and fields, in bytes. */
  lemma {:induction false} HeaderIs(net: Net, buf: seq<Byte>)
    requires |buf| >= HEADER_SIZE
    ensures HeaderValid(net, buf) ==> HeaderAt(net, buf, 0, GetCommand(buf), MessageSize(buf))
    ensures forall command, size :: HeaderAt(net, buf, 0, command, size) ==>
      HeaderValid(net, buf) && command == GetCommand(buf) && size == MessageSize(buf)
  {
    hide CommandField, StrLen;
    var c := CommandBytes(buf);
    assert buf[0..4] == buf[..START_SIZE] && c == buf[0 + 4..0 + 16];
    if HeaderValid(net, buf) { CommandIs(c); }
    forall command, size | HeaderAt(net, buf, 0, command, size)
      ensures HeaderValid(net, buf) && command == GetCommand(buf) && size == MessageSize(buf)
    {
      CommandUnique(c, command);
    }
  }

  /** How reading goes on at a valid header: not at all when the payload is not all there, past the
      header when the checksum is wrong, and past the dispatched message otherwise. */
  lemma {:induction false} FrontDecides(net: Net, buf: seq<Byte>, command: seq<Byte>, size: nat)
    requires HeaderAt(net, buf, 0, command, size)
    ensures 24 + size > |buf| ==> Parse(net, buf) == ([], buf)
    ensures 24 + size <= |buf| && net.checksum(buf[24..24 + size]) != buf[20..24] ==>
      Parse(net, buf) == Parse(net, buf[24..])
    ensures 24 + size <= |buf| && net.checksum(buf[24..24 + size]) == buf[20..24] ==>
      var rest := Parse(net, buf[24 + size..]);
      Parse(net, buf) == ([Message(command, buf[24..24 + size])] + rest.0, rest.1)
  {
    HeaderIs(net, buf);
    hide HeaderValid, GetCommand, MessageSize, Search;
    SearchIs(net.start, buf, 0, 0);
    assert buf[0..] == buf;
    var body := buf[HEADER_SIZE..];
    if size <= |body| { assert body[..size] == buf[24..24 + size] && body[size..] == buf[24 + size..]; }
  }

  /** A message start with a whole header behind it that is not valid: reading goes on past it. */
  lemma {:induction false} BadHeader(net: Net, buf: seq<Byte>)
    requires |buf| >= 24 && buf[..4] == net.start && forall command, size :: !HeaderAt(net, buf, 0, command, size)
    ensures Parse(net, buf) == Parse(net, buf[24..])
  {
    HeaderIs(net, buf);
    hide HeaderValid, GetCommand, MessageSize, Search, HeaderAt;
    assert buf[0..0 + START_SIZE] == buf[..4];
    SearchIs(net.start, buf, 0, 0);
    assert buf[0..] == buf;
  }

  /** Bytes before which no message starts do not matter, and without a message start that has a whole
      header behind it only the end of the buffer is kept. */
  lemma {:induction false} NothingStarts(net: Net, buf: seq<Byte>, k: nat)
    requires k <= |buf| && forall i :: 0 <= i < k && i + 4 <= |buf| ==> buf[i..][..4] != net.start
    ensures |buf| - k >= 24 ==> Parse(net, buf) == Parse(net, buf[k..])
    ensures |buf| - k < 24 ==> Parse(net, buf) == ([], if |buf| > 24 then buf[|buf| - 24..] else buf)
  {
    var p := Search(net.start, buf, 0);
    forall i | 0 <= i < k ensures !StartAt(net.start, buf, i) {
      if i + 4 <= |buf| { assert buf[i..][..4] == buf[i..i + 4]; }
    }
    assert p >= k;
    hide Next, Search;
    if |buf| - k >= 24 { ParseFrom(net, buf, k); }
  }

  /** From an offset on, the messages stand in the buffer one behind the other, and its last bytes are
      left over. */
  ghost predicate StandAt(net: Net, buf: seq<Byte>, from: nat, offsets: seq<nat>, ms: seq<Message>, rest: seq<Byte>) {
    && |offsets| == |ms| && (forall i :: 0 <= i < |ms| ==> FrameAt(net, buf, offsets[i], ms[i]))
    && (forall i, j :: 0 <= i < j < |ms| ==> offsets[i] + 24 + |ms[i].payload| <= offsets[j])
    && from + |rest| <= |buf| && rest == buf[|buf| - |rest|..]
    && (forall i :: 0 <= i < |ms| ==> from <= offsets[i] && offsets[i] + 24 + |ms[i].payload| <= |buf| - |rest|)
  }

  /** The frame whose header stands at an offset. */
  lemma {:induction false} FrameStands(net: Net, buf: seq<Byte>, at: nat)
    requires at + HEADER_SIZE <= |buf| && HeaderValid(net, buf[at..])
    requires at + HEADER_SIZE + MessageSize(buf[at..]) <= |buf|
    requires var payload := buf[at + HEADER_SIZE..at + HEADER_SIZE + MessageSize(buf[at..])];
      net.checksum(payload) == Checksum(buf[at..])
    ensures var payload := buf[at + HEADER_SIZE..at + HEADER_SIZE + MessageSize(buf[at..])];
      FrameAt(net, buf, at, Message(GetCommand(buf[at..]), payload))
  {
    hide HeaderValid, GetCommand, MessageSize;
    var cut := buf[at..];
    HeaderIs(net, cut);
    assert cut[0..4] == buf[at..at + 4] && cut[4..16] == buf[at + 4..at + 16];
    assert cut[20..24] == buf[at + 20..at + 24];
  }

  lemma {:induction false} StandFirst(net: Net, buf: seq<Byte>, from: nat, at: nat, m: Message, offsets: seq<nat>,
                                      ms: seq<Message>, rest: seq<Byte>)
    requires FrameAt(net, buf, at, m) && from <= at && StandAt(net, buf, at + 24 + |m.payload|, offsets, ms, rest)
    ensures StandAt(net, buf, from, [at] + offsets, [m] + ms, rest)
  {
    hide FrameAt;
  }

  lemma {:induction false} DispatchedFrom(net: Net, buf: seq<Byte>, from: nat) returns (offsets: seq<nat>)
    requires from <= |buf|
    ensures StandAt(net, buf, from, offsets, Parse(net, buf[from..]).0, Parse(net, buf[from..]).1)
    decreases |buf| - from
  {
    hide FrameAt, HeaderValid, GetCommand, MessageSize, Checksum, Search;
    var p := Search(net.start, buf[from..], 0);
    var (at, cut) := (from + p, buf[from..][p..]);
    assert cut == buf[at..];
    if |buf| - at < HEADER_SIZE || (HeaderValid(net, cut) && MessageSize(cut) > |buf| - at - HEADER_SIZE) {
      offsets := [];
      return;
    }
    var size := MessageSize(cut);
    var (body, next) := (cut[HEADER_SIZE..], at + HEADER_SIZE + size);
    assert body == buf[at + HEADER_SIZE..];
    if HeaderValid(net, cut) && net.checksum(body[..size]) == Checksum(cut) {
      assert body[..size] == buf[at + HEADER_SIZE..next] && body[size..] == buf[next..];
      FrameStands(net, buf, at);
      var offsets' := DispatchedFrom(net, buf, next);
      var rest := Parse(net, buf[next..]);
      StandFirst(net, buf, from, at, Message(GetCommand(cut), body[..size]), offsets', rest.0, rest.1);
      offsets := [at] + offsets';
    } else {
      offsets := DispatchedFrom(net, buf, at + HEADER_SIZE);
    }
  }

  /** Whatever the bytes, each dispatched message stands whole and undamaged in the buffer, the messages
      do not overlap and come in the order in which they stand, and what is left is the buffer's end. */
  lemma {:induction false} Dispatched(net: Net, buf: seq<Byte>)
    ensures exists offsets :: StandAt(net, buf, 0, offsets, Parse(net, buf).0, Parse(net, buf).1)
  {
    assert buf[0..] == buf;
    var offsets := DispatchedFrom(net, buf, 0);
  }

  // ------------------------------------------------------------------------------------------
  // Fragmentation
  // ------------------------------------------------------------------------------------------

  lemma {:induction false} SearchIs(start: Word, buf: seq<Byte>, i: nat, p: nat)
    requires i <= p <= |buf| && (p < |buf| ==> StartAt(start, buf, p))
    requires forall k :: i <= k < p ==> !StartAt(start, buf, k)
    ensures Search(start, buf, i) == p
  {
  }

  lemma {:induction false} SliceOfSuffix(buf: seq<Byte>, k: nat, i: nat)
    requires k + i + START_SIZE <= |buf|
    ensures buf[k..][i..i + START_SIZE] == buf[k + i..k + i + START_SIZE]
  {
  }

  lemma {:induction false} SearchCut(start: Word, buf: seq<Byte>, k: nat)
    requires k <= Search(start, buf, 0)
    ensures Search(start, buf[k..], 0) == Search(start, buf, 0) - k
  {
    var (p, cut) := (Search(start, buf, 0), buf[k..]);
    hide Search;
    forall i | 0 <= i < p - k ensures !StartAt(start, cut, i) {
      assert !StartAt(start, buf, k + i);
      if i + START_SIZE <= |cut| { SliceOfSuffix(buf, k, i); }
    }
    if p < |buf| { SliceOfSuffix(buf, k, p - k); }
    SearchIs(start, cut, 0, p - k);
  }

  /** Dropping bytes before which no message starts changes nothing, if a header's length is left. */
  lemma {:induction false} ParseFrom(net: Net, buf: seq<Byte>, k: nat)
    requires k <= Search(net.start, buf, 0) && |buf| - k >= HEADER_SIZE
    ensures Parse(net, buf[k..]) == Parse(net, buf)
  {
    hide Search, Next;
    SearchCut(net.start, buf, k);
    var p := Search(net.start, buf, 0);
    assert buf[k..][p - k..] == buf[p..];
    assert |buf| - p < HEADER_SIZE ==> LastOf(buf[k..]) == LastOf(buf);
  }

  /** More bytes keep every message start, and complete a new one only at the end. */
  lemma {:induction false} SearchMore(start: Word, a: seq<Byte>, b: seq<Byte>)
    ensures var (p, q) := (Search(start, a, 0), Search(start, a + b, 0)); if p < |a| then q == p
      else q + START_SIZE > |a|
  {
    var (p, q) := (Search(start, a, 0), Search(start, a + b, 0));
    forall i | 0 <= i && i + START_SIZE <= |a| ensures StartAt(start, a + b, i) == StartAt(start, a, i) {
      assert (a + b)[i..i + START_SIZE] == a[i..i + START_SIZE];
    }
    if p < |a| {
      SearchIs(start, a + b, 0, p);
    }
  }

  lemma {:induction false} HeaderPrefix(net: Net, a: seq<Byte>, b: seq<Byte>)
    requires |a| >= HEADER_SIZE
    ensures HeaderValid(net, a + b) == HeaderValid(net, a) && MessageSize(a + b) == MessageSize(a)
    ensures GetCommand(a + b) == GetCommand(a) && Checksum(a + b) == Checksum(a)
    ensures (a + b)[HEADER_SIZE..] == a[HEADER_SIZE..] + b
  {
    hide CommandField, FromLE4, StrLen;
    assert CommandBytes(a + b) == CommandBytes(a);
    assert (a + b)[SIZE_OFFSET..CHECKSUM_OFFSET] == a[SIZE_OFFSET..CHECKSUM_OFFSET];
    assert (a + b)[CHECKSUM_OFFSET..HEADER_SIZE] == a[CHECKSUM_OFFSET..HEADER_SIZE];
    assert (a + b)[..START_SIZE] == a[..START_SIZE];
  }

  function Joined(net: Net, first: (seq<Message>, seq<Byte>), b: seq<Byte>): (seq<Message>, seq<Byte>) {
    (first.0 + Parse(net, first.1 + b).0, Parse(net, first.1 + b).1)
  }

  /** Reading a and then b gives the same messages, in the same order, and leaves the same bytes as
      reading both at once - whatever the bytes are and wherever they were cut. */
  lemma {:induction false} CutAnywhere(net: Net, a: seq<Byte>, b: seq<Byte>)
    ensures Parse(net, a + b) == Joined(net, Parse(net, a), b)
    decreases |a|, 1
  {
    hide HeaderValid, GetCommand, MessageSize, Checksum, Search, Next;
    var p := Search(net.start, a, 0);
    SearchMore(net.start, a, b);
    if |a| - p < HEADER_SIZE {
      CutShort(net, a, b);
    } else {
      assert (a + b)[p..] == a[p..] + b;
      CutInMessage(net, a[p..], b);
      assert Parse(net, a + b) == Next(net, a[p..] + b);
    }
  }

  /** What is dropped while waiting for a header does not matter. */
  lemma {:induction false} DropShort(net: Net, a: seq<Byte>, b: seq<Byte>)
    requires |a| - Search(net.start, a, 0) < HEADER_SIZE
    ensures Parse(net, LastOf(a) + b) == Parse(net, a + b)
  {
    hide Search, Parse;
    SearchMore(net.start, a, b);
    if |a| > HEADER_SIZE {
      ParseFrom(net, a + b, |a| - HEADER_SIZE);
      assert (a + b)[|a| - HEADER_SIZE..] == LastOf(a) + b;
    }
  }

  /** The first part holds no whole header. */
  lemma {:induction false} CutShort(net: Net, a: seq<Byte>, b: seq<Byte>)
    requires |a| - Search(net.start, a, 0) < HEADER_SIZE
    ensures Parse(net, a + b) == Joined(net, Parse(net, a), b)
  {
    DropShort(net, a, b);
    assert Parse(net, a) == ([], LastOf(a));
    hide Parse, Next, Search;
    assert [] + Parse(net, a + b).0 == Parse(net, a + b).0;
  }

  lemma {:induction false} JoinedPrepend(net: Net, m: Message, r: (seq<Message>, seq<Byte>), b: seq<Byte>)
    ensures Joined(net, Prepend(m, r), b) == Prepend(m, Joined(net, r, b))
  {
    hide Parse;
    assert ([m] + r.0) + Parse(net, r.1 + b).0 == [m] + (r.0 + Parse(net, r.1 + b).0);
  }

  /** A message that has not arrived whole waits at the front of the buffer. */
  lemma {:induction false} WaitsWhole(net: Net, a: seq<Byte>, b: seq<Byte>)
    requires |a| >= HEADER_SIZE && StartAt(net.start, a, 0)
    ensures Joined(net, ([], a), b) == Next(net, a + b)
  {
    hide Next, Search;
    assert (a + b)[0..START_SIZE] == a[0..START_SIZE];
    SearchIs(net.start, a + b, 0, 0);
    assert (a + b)[0..] == a + b && [] + Parse(net, a + b).0 == Parse(net, a + b).0;
  }

  lemma {:induction false} CutInMessage(net: Net, a: seq<Byte>, b: seq<Byte>)
    requires |a| >= HEADER_SIZE && StartAt(net.start, a, 0)
    ensures Next(net, a + b) == Joined(net, Next(net, a), b)
    decreases |a|, 0
  {
    hide HeaderValid, GetCommand, MessageSize, Checksum, Parse, Joined, Prepend, StartAt;
    HeaderPrefix(net, a, b);
    var (body, size) := (a[HEADER_SIZE..], MessageSize(a));
    if !HeaderValid(net, a) {
      CutAnywhere(net, body, b);
    } else if size > |body| {
      WaitsWhole(net, a, b);
    } else {
      assert (body + b)[..size] == body[..size] && (body + b)[size..] == body[size..] + b;
      if net.checksum(body[..size]) != Checksum(a) {
        CutAnywhere(net, body, b);
      } else {
        CutAnywhere(net, body[size..], b);
        JoinedPrepend(net, Message(GetCommand(a), body[..size]), Parse(net, body[size..]), b);
      }
    }
  }

  /** What a receiver dispatches that is fed chunk by chunk. */
  function Feed(net: Net, chunks: seq<seq<Byte>>, k: nat): (seq<Message>, seq<Byte>)
    requires k <= |chunks|
  {
    if k == 0 then ([], []) else Joined(net, Feed(net, chunks, k - 1), chunks[k - 1])
  }

  function Concat(chunks: seq<seq<Byte>>, k: nat): seq<Byte>
    requires k <= |chunks|
  {
    if k == 0 then [] else Concat(chunks, k - 1) + chunks[k - 1]
  }

  lemma {:induction false} FeedIsParse(net: Net, chunks: seq<seq<Byte>>, k: nat)
    requires k <= |chunks|
    ensures Feed(net, chunks, k) == Parse(net, Concat(chunks, k))
  {
    if k > 0 {
      FeedIsParse(net, chunks, k - 1);
      CutAnywhere(net, Concat(chunks, k - 1), chunks[k - 1]);
    }
  }

  /** Feeds a receiver chunk by chunk. */
  method Receive(r: Receiver, chunks: seq<seq<Byte>>)
    requires r.vRecv == [] && r.dispatched == []
    modifies r
    ensures (r.dispatched, r.vRecv) == Parse(r.net, Concat(chunks, |chunks|))
  {
    for k := 0 to |chunks|
      invariant (r.dispatched, r.vRecv) == Feed(r.net, chunks, k)
    {
      r.vRecv := r.vRecv + chunks[k];
      r.ProcessMessages();
    }
    FeedIsParse(r.net, chunks, |chunks|);
  }

  /** Overwriting the last two fields of a header that stands in a buffer. */
  lemma {:induction false} Patched(before: seq<Byte>, head: seq<Byte>, a: Word, b: Word, after: seq<Byte>, a': Word,
                                   b': Word)
    requires |head| == SIZE_OFFSET
    ensures var p := |before|;
      var v := before + (head + a + b) + after;
      var v1 := v[..p + SIZE_OFFSET] + a' + v[p + SIZE_OFFSET + 4..];
      v1[..p + CHECKSUM_OFFSET] + b' + v1[p + CHECKSUM_OFFSET + 4..] == before + (head + a' + b') + after
  {
    var p := |before|;
    var v := before + (head + a + b) + after;
    var v1 := v[..p + SIZE_OFFSET] + a' + v[p + SIZE_OFFSET + 4..];
    assert v1 == before + (head + a' + b) + after;
  }

  // ------------------------------------------------------------------------------------------
  // Writing
  // ------------------------------------------------------------------------------------------

  /** The sending half of CNode; -1 marks that no message is open. */
  class Sender {
    const net: Net
    var vSend: seq<Byte>
    var nHeaderStart: int
    var nMessageStart: int

    constructor (net: Net)
      ensures this.net == net && vSend == [] && Closed()
    {
      this.net := net;
      vSend, nHeaderStart, nMessageStart := [], -1, -1;
    }

    predicate Closed()
      reads this
    {
      nHeaderStart == -1 && nMessageStart == -1
    }

    /** A message is open: its unfinished header stands at nHeaderStart, its payload follows. */
    predicate Open(command: seq<Byte>)
      reads this
    {
      && 0 <= nHeaderStart && nMessageStart == nHeaderStart + HEADER_SIZE <= |vSend|
      && vSend[nHeaderStart..nMessageStart] == Header(net, command, 0, [0, 0, 0, 0])
    }

    method BeginMessage(command: seq<Byte>)
      requires Closed() || exists c :: Open(c)
      modifies this
      ensures Open(command) && nMessageStart == |vSend|
      ensures vSend[..nHeaderStart] == if old(nHeaderStart) == -1 then old(vSend) else old(vSend)[..old(nHeaderStart)]
    {
      if nHeaderStart != -1 { AbortMessage(); }
      nHeaderStart := |vSend|;
      vSend := vSend + Header(net, command, 0, [0, 0, 0, 0]);
      nMessageStart := |vSend|;
    }

    method AbortMessage()
      requires nHeaderStart <= |vSend|
      modifies this
      ensures old(nHeaderStart) >= 0 ==> vSend == old(vSend)[..old(nHeaderStart)] && Closed()
      ensures old(nHeaderStart) < 0 ==>
        vSend == old(vSend) && nHeaderStart == old(nHeaderStart) && nMessageStart == old(nMessageStart)
    {
      if nHeaderStart < 0 { return; }
      vSend := vSend[..nHeaderStart];
      nHeaderStart := -1;
      nMessageStart := -1;
    }

    /** Fills in the size, as far as four bytes hold it, and the checksum of the open message; without
        an open message nothing happens. */
    method EndMessage(ghost command: seq<Byte>)
      requires Closed() || Open(command)
      modifies this
      ensures Closed()
      ensures old(Closed()) ==> vSend == old(vSend)
      ensures !old(Closed()) ==>
        var payload := old(vSend)[old(nMessageStart)..];
        vSend == old(vSend)[..old(nHeaderStart)]
                 + Header(net, command, |payload| % 0x1_0000_0000, net.checksum(payload)) + payload
    {
      if nHeaderStart < 0 { return; }
      ghost var (before, h, payload) :=
        (vSend[..nHeaderStart], vSend[nHeaderStart..nMessageStart], vSend[nMessageStart..]);
      assert vSend == before + h + payload;
      var nSize := (|vSend| - nMessageStart) % 0x1_0000_0000;
      var hash := net.checksum(vSend[nMessageStart..]);
      Overwrite(nHeaderStart + SIZE_OFFSET, LE4(nSize));
      Overwrite(nHeaderStart + CHECKSUM_OFFSET, hash);
      Patched(before, net.start + Pad(command), LE4(0), [0, 0, 0, 0], payload, LE4(nSize), hash);
      nHeaderStart := -1;
      nMessageStart := -1;
    }

    /** memcpy of four bytes into the buffer. */
    method Overwrite(at: nat, bytes: Word)
      requires at + 4 <= |vSend|
      modifies this`vSend
      ensures vSend == old(vSend)[..at] + bytes + old(vSend)[at + 4..]
    {
      vSend := vSend[..at] + bytes + vSend[at + 4..];
    }

    method PushMessage(m: Message)
      requires Closed() && |m.payload| <= MAX_SIZE
      modifies this
      ensures Closed() && vSend == old(vSend) + Frame(net, m)
    {
      BeginMessage(m.command);
      vSend := vSend + m.payload;
      EndMessage(m.command);
    }
  }

  // ------------------------------------------------------------------------------------------
  // Round trip
  // ------------------------------------------------------------------------------------------

  predicate Sendable(m: Message) {
    |m.command| <= COMMAND_SIZE && (forall i :: 0 <= i < |m.command| ==> Printable(m.command[i])) &&
      |m.payload| <= MAX_SIZE
  }

  function Frames(net: Net, ms: seq<Message>): seq<Byte>
  {
    if ms == [] then [] else Frame(net, ms[0]) + Frames(net, ms[1..])
  }

  /** A frame at the front of a buffer is dispatched, and reading goes on behind it. */
  lemma {:induction false} FrameRead(net: Net, m: Message, rest: seq<Byte>)
    requires Sendable(m)
    ensures Parse(net, Frame(net, m) + rest) == Prepend(m, Parse(net, rest))
  {
    hide HeaderValid, GetCommand, MessageSize, Checksum, Header, Search;
    var (h, tail) := (Header(net, m.command, |m.payload|, net.checksum(m.payload)), m.payload + rest);
    var buf := h + tail;
    assert Frame(net, m) + rest == buf;
    HeaderRoundTrip(net, m.command, |m.payload|, net.checksum(m.payload), tail);
    assert buf[0..START_SIZE] == buf[..START_SIZE];
    SearchIs(net.start, buf, 0, 0);
    assert buf[0..] == buf && tail[..|m.payload|] == m.payload && tail[|m.payload|..] == rest;
  }

  lemma {:induction false} FramesRead(net: Net, ms: seq<Message>)
    requires forall i :: 0 <= i < |ms| ==> Sendable(ms[i])
    ensures Parse(net, Frames(net, ms)) == (ms, [])
  {
    hide Frame, Next, Sendable;
    if ms != [] {
      FrameRead(net, ms[0], Frames(net, ms[1..]));
      FramesRead(net, ms[1..]);
      assert ms == [ms[0]] + ms[1..];
    }
  }

  /** Messages written one after the other, cut into chunks anywhere, are dispatched exactly as sent. */
  lemma {:induction false} Delivered(net: Net, ms: seq<Message>, chunks: seq<seq<Byte>>)
    requires forall i :: 0 <= i < |ms| ==> Sendable(ms[i])
    requires Concat(chunks, |chunks|) == Frames(net, ms)
    ensures Feed(net, chunks, |chunks|) == (ms, [])
  {
    FeedIsParse(net, chunks, |chunks|);
    FramesRead(net, ms);
  }

  lemma {:induction false} FramesAppend(net: Net, ms: seq<Message>, m: Message)
    ensures Frames(net, ms + [m]) == Frames(net, ms) + Frame(net, m)
  {
    if ms == [] {
      assert [m][1..] == [];
    } else {
      FramesAppend(net, ms[1..], m);
      assert (ms + [m])[1..] == ms[1..] + [m];
    }
  }

  method Send(s: Sender, ms: seq<Message>)
    requires s.Closed() && s.vSend == [] && forall i :: 0 <= i < |ms| ==> Sendable(ms[i])
    modifies s
    ensures s.Closed() && s.vSend == Frames(s.net, ms)
  {
    for i := 0 to |ms|
      invariant s.Closed() && s.vSend == Frames(s.net, ms[..i])
    {
      s.PushMessage(ms[i]);
      FramesAppend(s.net, ms[..i], ms[i]);
      assert ms[..i + 1] == ms[..i] + [ms[i]];
    }
    assert ms[..|ms|] == ms;
  }
}
