/** Taking packets out of a byte stream and putting fragments together: what is delivered
    does not depend on how the stream was cut into pieces on its way. */
module PacketStream {
  import Bits

  type byte = Bits.byte

  const HEAD: nat := 20

  // The fields of the header that matter here.
  datatype Head = Head(len: nat, cmd: nat, total: nat, seqNo: nat)

  datatype Package = Package(cmd: nat, body: seq<byte>)

  // The receive buffer, the fragments gathered so far, and what was handed on.
  datatype Receiver = Receiver(buf: seq<byte>, pkg: seq<byte>, delivered: seq<Package>)

  // Two bytes in network order.
  function Short(s: seq<byte>, i: nat): nat
    requires i + 2 <= |s|
  {
    var high: nat := s[i];
    high * 256 + s[i + 1]
  }

  function HeadOf(s: seq<byte>): Head
    requires |s| >= HEAD
  {
    Head(Short(s, 4), Short(s, 6), Short(s, 16), Short(s, 18))
  }

  // What the check of a header says; it may look at all twenty bytes.
  type Check = seq<byte> -> bool

  predicate IsLast(h: Head) { h.total == 0 || h.total == h.seqNo + 1 }

  /** A complete packet joins those before it; the last one delivers them. */
  function TakePacket(r: Receiver): Receiver
    requires |r.buf| >= HEAD && HEAD <= HeadOf(r.buf).len <= |r.buf|
  {
    var h := HeadOf(r.buf);
    var gathered := (if h.seqNo == 0 then [] else r.pkg) + r.buf[HEAD..h.len];
    Receiver(r.buf[h.len..], gathered, if IsLast(h) then r.delivered + [Package(h.cmd, gathered)] else r.delivered)
  }

  // The next packet is there, and it is a good one.
  predicate Ready(buf: seq<byte>, check: Check) {
    |buf| >= HEAD && check(buf[..HEAD]) && HEAD <= HeadOf(buf).len <= |buf|
  }

  // The header in front is refused. A length shorter than the header counts as refused:
  // the receiver relies on its check for that.
  predicate Bad(buf: seq<byte>, check: Check) {
    |buf| >= HEAD && (!check(buf[..HEAD]) || HeadOf(buf).len < HEAD)
  }

  /** All packets that are complete. A bad header stops it. */
  function Drain(r: Receiver, check: Check): Receiver
    decreases |r.buf|
  {
    if Ready(r.buf, check) then Drain(TakePacket(r), check) else r
  }

  // No bad header comes to the front.
  predicate AllGood(buf: seq<byte>, check: Check)
    decreases |buf|
  {
    !Bad(buf, check) && (Ready(buf, check) ==> AllGood(buf[HeadOf(buf).len..], check))
  }

  function More(r: Receiver, chunk: seq<byte>): Receiver { r.(buf := r.buf + chunk) }

  /** One piece of data. After a bad header everything in the buffer is dropped. */
  function Received(r: Receiver, chunk: seq<byte>, check: Check): Receiver {
    var d := Drain(More(r, chunk), check);
    if Bad(d.buf, check) then d.(buf := []) else d
  }

  function FeedAll(r: Receiver, chunks: seq<seq<byte>>, check: Check): Receiver
    decreases |chunks|
  {
    if chunks == [] then r else FeedAll(Received(r, chunks[0], check), chunks[1..], check)
  }

  function Joined(chunks: seq<seq<byte>>): seq<byte> {
    if chunks == [] then [] else chunks[0] + Joined(chunks[1..])
  }

  // ----------------------------------------------------------------- cutting the stream

  // What is at the front does not depend on what comes later.
  lemma LongerIsReady(buf: seq<byte>, more: seq<byte>, check: Check)
    requires Ready(buf, check)
    ensures Ready(buf + more, check) && HeadOf(buf + more) == HeadOf(buf)
    ensures (buf + more)[HeadOf(buf).len..] == buf[HeadOf(buf).len..] + more
  {
    assert (buf + more)[..HEAD] == buf[..HEAD];
  }

  lemma TakeCommutes(r: Receiver, more: seq<byte>, check: Check)
    requires Ready(r.buf, check)
    ensures Ready(r.buf + more, check) && TakePacket(More(r, more)) == More(TakePacket(r), more)
  {
    LongerIsReady(r.buf, more, check);
    var n := HeadOf(r.buf).len;
    assert (r.buf + more)[HEAD..n] == r.buf[HEAD..n];
  }

  /** Draining early and then again, when more has come, is draining once. */
  lemma {:induction false} DrainInTwo(r: Receiver, more: seq<byte>, check: Check)
    requires AllGood(r.buf + more, check)
    ensures Drain(More(Drain(r, check), more), check) == Drain(More(r, more), check)
    ensures AllGood(Drain(r, check).buf + more, check)
    decreases |r.buf|
  {
    hide HeadOf, TakePacket;
    if Ready(r.buf, check) {
      TakeCommutes(r, more, check);
      LongerIsReady(r.buf, more, check);
      TakenBuf(r);
      DrainInTwo(TakePacket(r), more, check);
    }
  }

  // Draining stops where no bad header is.
  lemma {:induction false} NothingBad(r: Receiver, check: Check)
    requires AllGood(r.buf, check)
    ensures !Bad(Drain(r, check).buf, check)
    decreases |r.buf|
  {
    hide HeadOf, TakePacket;
    if Ready(r.buf, check) {
      TakenBuf(r);
      NothingBad(TakePacket(r), check);
    }
  }

  // The beginning of a stream without bad headers has none.
  lemma {:induction false} PrefixIsGood(buf: seq<byte>, more: seq<byte>, check: Check)
    requires AllGood(buf + more, check)
    ensures AllGood(buf, check)
    decreases |buf|
  {
    hide HeadOf;
    if |buf| >= HEAD {
      assert (buf + more)[..HEAD] == buf[..HEAD];
      assert HeadOf(buf + more) == HeadOf(buf) by { SameHead(buf, more); }
      if Ready(buf, check) {
        LongerIsReady(buf, more, check);
        PrefixIsGood(buf[HeadOf(buf).len..], more, check);
      }
    }
  }

  lemma SameHead(buf: seq<byte>, more: seq<byte>)
    requires |buf| >= HEAD
    ensures HeadOf(buf + more) == HeadOf(buf)
  {
  }

  lemma TakenBuf(r: Receiver)
    requires |r.buf| >= HEAD && HEAD <= HeadOf(r.buf).len <= |r.buf|
    ensures TakePacket(r).buf == r.buf[HeadOf(r.buf).len..]
  {
  }

  /** However a stream without bad headers is cut into pieces, the packages handed on, the
      fragments gathered and the bytes left over are those of one whole read. */
  lemma {:induction false} ChunksDoNotMatter(r: Receiver, chunks: seq<seq<byte>>, check: Check)
    requires chunks != [] && AllGood(r.buf + Joined(chunks), check)
    ensures FeedAll(r, chunks, check) == Drain(More(r, Joined(chunks)), check)
    decreases |chunks|
  {
    hide Drain, AllGood;
    var first, rest := chunks[0], chunks[1..];
    var d := Drain(More(r, first), check);
    assert r.buf + Joined(chunks) == More(r, first).buf + Joined(rest);
    PrefixIsGood(More(r, first).buf, Joined(rest), check);
    NothingBad(More(r, first), check);
    assert Received(r, first, check) == d;
    if rest == [] {
      assert Joined(rest) == [];
      assert first + [] == first;
      assert FeedAll(d, [], check) == d;
    } else {
      DrainInTwo(More(r, first), Joined(rest), check);
      ChunksDoNotMatter(d, rest, check);
      assert More(More(r, first), Joined(rest)) == More(r, Joined(chunks));
    }
  }

  // ------------------------------------------------------------- packets and packages

  // One packet as sent: twenty bytes of header and a body.
  datatype Packet = Packet(head: seq<byte>, body: seq<byte>)

  ghost predicate WellFormed(p: Packet, check: Check) {
    |p.head| == HEAD && check(p.head) && HeadOf(p.head).len == HEAD + |p.body|
  }

  function Wire(packets: seq<Packet>): seq<byte> {
    if packets == [] then [] else packets[0].head + packets[0].body + Wire(packets[1..])
  }

  // The bodies of packets i to k, one after the other.
  function Bodies(packets: seq<Packet>, i: nat, k: nat): seq<byte>
    requires i <= k <= |packets|
  {
    if i == k then [] else Bodies(packets, i, k - 1) + packets[k - 1].body
  }

  // The last packet numbered 0 among the first k, or the first packet.
  function Start(packets: seq<Packet>, k: nat): (i: nat)
    requires k <= |packets| && forall p | p in packets :: |p.head| >= HEAD
    ensures i <= k
    ensures k > 0 ==> i < k
  {
    if k == 0 then 0
    else
      assert packets[k - 1] in packets;
      if HeadOf(packets[k - 1].head).seqNo == 0 then k - 1
      else if k == 1 then 0 else Start(packets, k - 1)
  }

  /** Every last packet delivers the bodies since the last packet numbered 0. */
  function Packages(packets: seq<Packet>, k: nat): seq<Package>
    requires k <= |packets| && forall p | p in packets :: |p.head| >= HEAD
  {
    if k == 0 then []
    else
      assert packets[k - 1] in packets;
      var h := HeadOf(packets[k - 1].head);
      Packages(packets, k - 1)
      + if IsLast(h) then [Package(h.cmd, Bodies(packets, Start(packets, k), k))] else []
  }

  const EMPTY := Receiver([], [], [])

  ghost predicate AllWellFormed(packets: seq<Packet>, check: Check) {
    forall p | p in packets :: WellFormed(p, check)
  }

  // The receiver when k packets have been taken and the rest is in its buffer.
  function After(packets: seq<Packet>, k: nat, tail: seq<byte>): Receiver
    requires k <= |packets| && forall p | p in packets :: |p.head| >= HEAD
  {
    Receiver(Wire(packets[k..]) + tail, Bodies(packets, Start(packets, k), k), Packages(packets, k))
  }

  lemma FrontPacket(packets: seq<Packet>, k: nat, tail: seq<byte>, check: Check)
    requires AllWellFormed(packets, check) && k < |packets|
    ensures
      var buf, p := Wire(packets[k..]) + tail, packets[k];
      && Ready(buf, check) && !Bad(buf, check)
      && |p.head| == HEAD && HeadOf(buf) == HeadOf(p.head)
      && buf[HEAD..HeadOf(buf).len] == p.body && buf[HeadOf(buf).len..] == Wire(packets[k + 1..]) + tail
  {
    var p := packets[k];
    assert p in packets;
    assert packets[k..][1..] == packets[k + 1..];
    var rest := Wire(packets[k + 1..]) + tail;
    var buf := Wire(packets[k..]) + tail;
    assert buf == p.head + (p.body + rest);
    assert buf[..HEAD] == p.head;
    assert HeadOf(buf) == HeadOf(p.head);
    var n := HeadOf(buf).len;
    assert buf[HEAD..] == p.body + rest;
    assert buf[HEAD..n] == buf[HEAD..][..n - HEAD];
    assert buf[n..] == buf[HEAD..][n - HEAD..];
  }

  lemma TakeOne(packets: seq<Packet>, k: nat, tail: seq<byte>, check: Check)
    requires AllWellFormed(packets, check) && k < |packets|
    ensures
      var r := After(packets, k, tail);
      Ready(r.buf, check) && TakePacket(r) == After(packets, k + 1, tail)
  {
    hide HeadOf, Wire;
    FrontPacket(packets, k, tail, check);
    assert packets[k] in packets;
    if HeadOf(packets[k].head).seqNo == 0 {
      assert Bodies(packets, k, k) == [];
    } else if k == 0 {
      assert Bodies(packets, 0, 0) == [];
    }
  }

  /** One whole read of well-formed packets, followed by an incomplete one, hands on their
      packages and keeps the incomplete rest. */
  lemma {:induction false} DrainOfPackets(packets: seq<Packet>, k: nat, tail: seq<byte>, check: Check)
    requires AllWellFormed(packets, check) && k <= |packets| && !Ready(tail, check) && !Bad(tail, check)
    ensures Drain(After(packets, k, tail), check) == After(packets, |packets|, tail)
    ensures AllGood(Wire(packets[k..]) + tail, check)
    decreases |packets| - k
  {
    hide TakePacket, Ready, Bad, HeadOf;
    if k < |packets| {
      TakeOne(packets, k, tail, check);
      FrontPacket(packets, k, tail, check);
      DrainOfPackets(packets, k + 1, tail, check);
      assert packets[k..] != [];
      assert Drain(After(packets, k, tail), check) == Drain(TakePacket(After(packets, k, tail)), check);
    } else {
      assert Wire(packets[k..]) + tail == tail;
    }
  }

  /** The whole statement: well-formed packets, cut into any pieces, are delivered as the
      packages they make up, each body being the bodies since the last packet numbered 0. */
  lemma StreamIsReassembled(packets: seq<Packet>, tail: seq<byte>, chunks: seq<seq<byte>>, check: Check)
    requires AllWellFormed(packets, check) && !Ready(tail, check) && !Bad(tail, check)
    requires chunks != [] && Joined(chunks) == Wire(packets) + tail
    ensures
      var r := FeedAll(EMPTY, chunks, check);
      r.delivered == Packages(packets, |packets|) && r.buf == tail
  {
    hide Drain, AllGood, Ready, Bad;
    assert packets[0..] == packets;
    DrainOfPackets(packets, 0, tail, check);
    assert EMPTY.buf + Joined(chunks) == Joined(chunks);
    ChunksDoNotMatter(EMPTY, chunks, check);
    assert More(EMPTY, Joined(chunks)) == After(packets, 0, tail);
    assert Wire(packets[|packets|..]) + tail == tail;
  }

  // ------------------------------------------------------------------- messages

  // A number below 65536 in network order.
  function TwoBytes(x: nat): seq<byte>
    requires x < 0x1_0000
  {
    [x / 256, x % 256]
  }

  /** The header: four bytes that do not matter here, the length of the packet, the command,
      eight more bytes, the number of fragments and the number of this one. */
  function HeaderBytes(front: seq<byte>, len: nat, cmd: nat, middle: seq<byte>, total: nat, seqNo: nat): seq<byte>
    requires len < 0x1_0000 && cmd < 0x1_0000 && total < 0x1_0000 && seqNo < 0x1_0000
  {
    front + TwoBytes(len) + TwoBytes(cmd) + middle + TwoBytes(total) + TwoBytes(seqNo)
  }

  /** What is read from a header is what was written into it. */
  lemma HeadReadsBack(front: seq<byte>, len: nat, cmd: nat, middle: seq<byte>, total: nat, seqNo: nat)
    requires |front| == 4 && |middle| == 8
    requires len < 0x1_0000 && cmd < 0x1_0000 && total < 0x1_0000 && seqNo < 0x1_0000
    ensures
      var s := HeaderBytes(front, len, cmd, middle, total, seqNo);
      |s| == HEAD && HeadOf(s) == Head(len, cmd, total, seqNo)
  {
    var s := HeaderBytes(front, len, cmd, middle, total, seqNo);
    assert s[4..6] == TwoBytes(len) && s[6..8] == TwoBytes(cmd) && s[16..18] == TwoBytes(total) && s[18..20] == TwoBytes(seqNo);
    ShortOf(s, 4, len);
    ShortOf(s, 6, cmd);
    ShortOf(s, 16, total);
    ShortOf(s, 18, seqNo);
  }

  lemma ShortOf(s: seq<byte>, i: nat, x: nat)
    requires i + 2 <= |s| && x < 0x1_0000 && s[i..i + 2] == TwoBytes(x)
    ensures Short(s, i) == x
  {
    assert s[i] == s[i..i + 2][0] && s[i + 1] == s[i..i + 2][1];
  }

  // A part of a message, with the bytes of its header that do not matter.
  datatype Fragment = Fragment(front: seq<byte>, middle: seq<byte>, body: seq<byte>)

  // total is the number of fragments; a message in one packet may also say 0.
  datatype Message = Message(cmd: nat, total: nat, parts: seq<Fragment>)

  predicate Sendable(m: Message) {
    && m.cmd < 0x1_0000 && 0 < |m.parts| < 0x1_0000
    && (m.total == |m.parts| || (m.total == 0 && |m.parts| == 1))
    && forall f | f in m.parts :: |f.front| == 4 && |f.middle| == 8 && HEAD + |f.body| < 0x1_0000
  }

  function PacketOf(m: Message, i: nat): Packet
    requires Sendable(m) && i < |m.parts|
  {
    var f := m.parts[i];
    assert f in m.parts;
    Packet(HeaderBytes(f.front, HEAD + |f.body|, m.cmd, f.middle, m.total, i), f.body)
  }

  // The first j packets of a message.
  function PacketsOf(m: Message, j: nat): (r: seq<Packet>)
    requires Sendable(m) && j <= |m.parts|
    ensures |r| == j
  {
    seq(j, i requires 0 <= i < j => PacketOf(m, i))
  }

  function BodyOf(parts: seq<Fragment>): seq<byte> {
    if parts == [] then [] else BodyOf(parts[..|parts| - 1]) + parts[|parts| - 1].body
  }

  predicate AllSendable(messages: seq<Message>) { forall m | m in messages :: Sendable(m) }

  function AllPackets(messages: seq<Message>): seq<Packet>
    requires AllSendable(messages)
  {
    if messages == [] then []
    else
      var m := messages[|messages| - 1];
      assert m in messages;
      AllPackets(messages[..|messages| - 1]) + PacketsOf(m, |m.parts|)
  }

  // One package for each message.
  function Contents(messages: seq<Message>): seq<Package> {
    seq(|messages|, i requires 0 <= i < |messages| => Package(messages[i].cmd, BodyOf(messages[i].parts)))
  }

  /** Messages sent in fragments, numbered from 0, or in one packet, and cut into any pieces on
      their way are delivered: each as one package with its command and its whole body, in
      their order, and nothing else is. */
  lemma MessagesAreDelivered(messages: seq<Message>, tail: seq<byte>, chunks: seq<seq<byte>>, check: Check)
    requires AllSendable(messages) && forall p | p in AllPackets(messages) :: check(p.head)
    requires !Ready(tail, check) && !Bad(tail, check)
    requires chunks != [] && Joined(chunks) == Wire(AllPackets(messages)) + tail
    ensures FeedAll(EMPTY, chunks, check).delivered == Contents(messages)
    ensures FeedAll(EMPTY, chunks, check).buf == tail
  {
    hide Ready, Bad, WellFormed;
    var packets := AllPackets(messages);
    HeadersAre(messages);
    assert AllWellFormed(packets, check) by { ChecksOut(packets, check); }
    StreamIsReassembled(packets, tail, chunks, check);
    PackagesAre(messages);
  }

  // Each packet has the length of its body in its header.
  ghost predicate Fitting(p: Packet) { |p.head| == HEAD && HeadOf(p.head).len == HEAD + |p.body| }

  lemma ChecksOut(packets: seq<Packet>, check: Check)
    requires forall p | p in packets :: Fitting(p) && check(p.head)
    ensures AllWellFormed(packets, check)
  {
  }

  lemma PacketHead(m: Message, i: nat)
    requires Sendable(m) && i < |m.parts|
    ensures
      var p := PacketOf(m, i);
      Fitting(p) && HeadOf(p.head) == Head(HEAD + |p.body|, m.cmd, m.total, i) && p.body == m.parts[i].body
  {
    var f := m.parts[i];
    assert f in m.parts;
    HeadReadsBack(f.front, HEAD + |f.body|, m.cmd, f.middle, m.total, i);
  }

  lemma {:induction false} HeadersAre(messages: seq<Message>)
    requires AllSendable(messages)
    ensures forall p | p in AllPackets(messages) :: Fitting(p)
    decreases |messages|
  {
    hide HeadOf, Fitting, PacketOf;
    if messages != [] {
      var m, before := messages[|messages| - 1], messages[..|messages| - 1];
      assert m in messages && AllSendable(before);
      HeadersAre(before);
      forall p | p in PacketsOf(m, |m.parts|)
        ensures Fitting(p)
      {
        var i :| 0 <= i < |m.parts| && p == PacketOf(m, i);
        PacketHead(m, i);
      }
    }
  }

  lemma {:induction false} PackagesAre(messages: seq<Message>)
    requires AllSendable(messages)
    ensures forall p | p in AllPackets(messages) :: |p.head| >= HEAD
    ensures Packages(AllPackets(messages), |AllPackets(messages)|) == Contents(messages)
    decreases |messages|
  {
    hide HeadOf, Packages, PacketsOf, BodyOf;
    HeadersAre(messages);
    if messages == [] {
      assert Packages([], 0) == [] by { NoPackages(); }
    } else {
      var m, before := messages[|messages| - 1], messages[..|messages| - 1];
      assert m in messages && AllSendable(before);
      HeadersAre(before);
      PackagesAre(before);
      MessageTaken(AllPackets(before), m, |m.parts|);
      assert m.parts[..|m.parts|] == m.parts;
      assert Contents(messages) == Contents(before) + [Package(m.cmd, BodyOf(m.parts))];
    }
  }

  lemma NoPackages()
    ensures Packages([], 0) == []
  {
  }

  // After some packets the first j of a message.
  lemma {:induction false} MessageTaken(before: seq<Packet>, m: Message, j: nat)
    requires Sendable(m) && j <= |m.parts| && forall p | p in before :: Fitting(p)
    ensures forall p | p in before + PacketsOf(m, j) :: |p.head| >= HEAD
    ensures
      var packets, n := before + PacketsOf(m, j), |before|;
      && Packages(packets, n + j) == Packages(before, n) + (if j == |m.parts| then [Package(m.cmd, BodyOf(m.parts[..j]))] else [])
      && (j > 0 ==> Start(packets, n + j) == n && Bodies(packets, n, n + j) == BodyOf(m.parts[..j]))
    decreases j
  {
    hide HeadOf, PacketOf, Packages, Start, Bodies, PacketsOf, IsLast;
    var n := |before|;
    if j == 0 {
      assert before + PacketsOf(m, 0) == before by { NoPackets(m); }
      assert Packages(before, n) + [] == Packages(before, n);
    } else {
      MessageTaken(before, m, j - 1);
      PacketHead(m, j - 1);
      OneMorePacket(m, j);
      var shorter, last := before + PacketsOf(m, j - 1), PacketOf(m, j - 1);
      assert before + PacketsOf(m, j) == shorter + [last];
      PackageOf(shorter, last, n);
      assert m.parts[..j][..j - 1] == m.parts[..j - 1] && m.parts[..j][j - 1] == m.parts[j - 1];
      assert [] + last.body == last.body;
      LastOf(m, j - 1);
      assert Packages(before, n) + [] == Packages(before, n);
      if j == 1 {
        assert m.parts[..0] == [] && shorter == before by { NoPackets(m); }
        assert Bodies(shorter, n, n) == [] by { NoBodies(shorter, n); }
      }
    }
  }

  lemma LastOf(m: Message, i: nat)
    requires Sendable(m) && i < |m.parts|
    ensures IsLast(HeadOf(PacketOf(m, i).head)) <==> i + 1 == |m.parts|
  {
    hide HeadOf;
    PacketHead(m, i);
  }

  lemma NoPackets(m: Message)
    requires Sendable(m)
    ensures PacketsOf(m, 0) == []
  {
  }

  lemma NoBodies(packets: seq<Packet>, k: nat)
    requires k <= |packets|
    ensures Bodies(packets, k, k) == []
  {
  }

  lemma OneMorePacket(m: Message, j: nat)
    requires Sendable(m) && 0 < j <= |m.parts|
    ensures PacketsOf(m, j) == PacketsOf(m, j - 1) + [PacketOf(m, j - 1)]
  {
    hide PacketOf;
  }

  // What the last packet adds: a package, if it is the last of its message.
  lemma PackageOf(packets: seq<Packet>, p: Packet, i: nat)
    requires Fitting(p) && (forall q | q in packets :: |q.head| >= HEAD) && i <= |packets|
    ensures forall q | q in packets + [p] :: |q.head| >= HEAD
    ensures
      var longer, k, h := packets + [p], |packets|, HeadOf(p.head);
      && Start(longer, k + 1) == (if h.seqNo == 0 then k else if k == 0 then 0 else Start(packets, k))
      && Bodies(longer, i, k + 1) == Bodies(packets, i, k) + p.body
      && Packages(longer, k + 1)
         == Packages(packets, k) + if IsLast(h) then [Package(h.cmd, Bodies(longer, Start(longer, k + 1), k + 1))] else []
  {
    hide HeadOf, IsLast;
    LongerSame(packets, p, |packets|);
    LongerBodies(packets, p, i, |packets|);
    assert (packets + [p])[|packets|] == p;
  }

  lemma {:induction false} LongerSame(packets: seq<Packet>, p: Packet, k: nat)
    requires k <= |packets| && Fitting(p) && forall q | q in packets :: |q.head| >= HEAD
    ensures forall q | q in packets + [p] :: |q.head| >= HEAD
    ensures Start(packets + [p], k) == Start(packets, k)
    ensures Packages(packets + [p], k) == Packages(packets, k)
    decreases k
  {
    hide HeadOf;
    if k > 0 {
      LongerSame(packets, p, k - 1);
      assert packets[k - 1] in packets;
      LongerBodies(packets, p, Start(packets, k), k);
    }
  }

  lemma {:induction false} LongerBodies(packets: seq<Packet>, p: Packet, i: nat, k: nat)
    requires i <= k <= |packets|
    ensures Bodies(packets + [p], i, k) == Bodies(packets, i, k)
    decreases k
  {
    if i < k { LongerBodies(packets, p, i, k - 1); }
  }

  // ------------------------------------------------------------------- the receiver

  class SocketClient {
    var recvBuf: seq<byte>
    var totalPkg: seq<byte>
    var totalPkgLen: nat
    var packages: seq<Package>
    var reconnects: nat

    predicate Valid()
      reads this
    {
      totalPkgLen == |totalPkg|
    }

    function Abs(): Receiver
      reads this
    {
      Receiver(recvBuf, totalPkg, packages)
    }

    constructor ()
      ensures Valid() && Abs() == EMPTY && reconnects == 0
    {
      recvBuf, totalPkg, totalPkgLen, packages, reconnects := [], [], 0, [], 0;
    }

    /** One piece of data: every packet it completes is taken out. After a bad header the
        buffer is dropped and the connection made anew. */
    method Receive(chunk: seq<byte>, check: Check)
      requires Valid()
      modifies this
      ensures Valid()
      ensures
        var left := Drain(More(old(Abs()), chunk), check).buf;
        var refused := |left| >= HEAD && (!check(left[..HEAD]) || HeadOf(left).len < HEAD);
        && Abs() == Received(old(Abs()), chunk, check)
        && recvBuf == (if refused then [] else left)
        && reconnects == old(reconnects) + if refused then 1 else 0
    {
      hide HeadOf;
      recvBuf := recvBuf + chunk;
      ghost var start := Abs();
      while true
        invariant Valid() && Drain(Abs(), check) == Drain(start, check) && reconnects == old(reconnects)
        decreases |recvBuf|
      {
        if |recvBuf| < HEAD { break; }
        var h := HeadOf(recvBuf);
        if !check(recvBuf[..HEAD]) || h.len < HEAD {
          recvBuf := [];
          reconnects := reconnects + 1;
          break;
        }
        if |recvBuf| < h.len { break; }
        var body := recvBuf[HEAD..h.len];
        recvBuf := recvBuf[h.len..];
        if h.seqNo == 0 {
          totalPkg := [];
          totalPkgLen := 0;
        }
        totalPkgLen := totalPkgLen + |body|;
        totalPkg := totalPkg + body;
        if h.total == 0 || h.total == h.seqNo + 1 {
          packages := packages + [Package(h.cmd, totalPkg)];
        }
      }
    }
  }
}
