// Common/protocol.c and the loops of Common/socket.c: packets, a header and a
// payload, over a byte stream that the network may cut anywhere.
module Framing {
  import opened Bytes
  import opened Serial

  const BUFFER_CAPACITY := 1024
  const HEADER_SIZE := 7
  const OP_UNDEFINED := 0

  datatype Header = Header(syspid: byte, usrpid: byte, opcode: byte, msgsize: nat)

  datatype Packet = Packet(header: Header, payload: seq<byte>) {
    /** protocol_packet_send takes msgsize bytes from the payload. */
    predicate WellFormed() { header.msgsize == |payload| }
  }

  /** The header a failed receive leaves. */
  const NO_HEADER := Header(0, 0, 0, 0)

  // ----- What goes on the wire

  lemma FieldInFront(c: char, format: string, a: Arg, args: seq<Arg>)
    requires TakesArgument(c) && Accepts(c, a) && Matches(format, args)
    ensures Matches([c] + format, [a] + args)
    ensures Packed([c] + format, [a] + args) == Field(c, a) + Packed(format, args)
  {
    assert ([c] + format)[1..] == format && ([a] + args)[1..] == args;
  }

  lemma TwoFields(c: nat, d: nat)
    ensures Matches("CL", [Number(c), Number(d)])
    ensures Packed("CL", [Number(c), Number(d)]) == PackBytes(1, c) + PackBytes(4, d)
  {
    FieldInFront('L', "", Number(d), []);
    assert ['L'] + "" == "L" && [Number(d)] + [] == [Number(d)];
    FieldInFront('C', "L", Number(c), [Number(d)]);
    assert ['C'] + "L" == "CL" && [Number(c)] + [Number(d)] == [Number(c), Number(d)];
    assert PackBytes(4, d) + Packed("", []) == PackBytes(4, d);
  }

  lemma FourFields(a: nat, b: nat, c: nat, d: nat)
    ensures var args := [Number(a), Number(b), Number(c), Number(d)];
            && Matches("CCCL", args)
            && Packed("CCCL", args) == PackBytes(1, a) + (PackBytes(1, b) + (PackBytes(1, c) + PackBytes(4, d)))
  {
    var two := [Number(c), Number(d)];
    TwoFields(c, d);
    FieldInFront('C', "CL", Number(b), two);
    FieldInFront('C', "CCL", Number(a), [Number(b)] + two);
    assert ['C'] + "CL" == "CCL" && ['C'] + "CCL" == "CCCL";
    assert [Number(a)] + ([Number(b)] + two) == [Number(a), Number(b), Number(c), Number(d)];
  }

  function HeaderArgs(h: Header): (args: seq<Arg>)
    ensures Matches("CCCL", args) && ShortTexts(args)
  {
    FourFields(h.syspid, h.usrpid, h.opcode, h.msgsize);
    [Number(h.syspid), Number(h.usrpid), Number(h.opcode), Number(h.msgsize)]
  }

  function HeaderBytes(h: Header): seq<byte> { Packed("CCCL", HeaderArgs(h)) }

  function PacketBytes(p: Packet): seq<byte> { HeaderBytes(p.header) + p.payload }

  function StreamOf(ps: seq<Packet>): seq<byte> {
    if ps == [] then [] else PacketBytes(ps[0]) + StreamOf(ps[1..])
  }

  // ----- What is read from it

  /** How many of the bytes asked for the network hands over at its calls-th turn. */
  function Piece(split: nat -> nat, calls: nat, most: nat): (n: nat)
    requires most > 0
    ensures 1 <= n <= most
  {
    if split(calls) < 1 then 1 else if split(calls) > most then most else split(calls)
  }

  /** Where recvall stops: how many bytes it has stored, after how many turns of the
      network, and whether the peer had closed the connection. */
  datatype Reading = Reading(got: nat, calls: nat, dropped: bool)

  function Reads(stream: seq<byte>, len: nat, split: nat -> nat, got: nat, calls: nat): (r: Reading)
    requires got <= len && got <= |stream|
    ensures got <= r.got <= len && r.got <= |stream|
    decreases len - got
  {
    if got == len then Reading(got, calls, false)
    else if got == |stream| then Reading(got, calls + 1, true)
    else
      var next := got + Piece(split, calls, if len < |stream| then len - got else |stream| - got);
      if len == BUFFER_CAPACITY && stream[next - 1] == 0 then Reading(next, calls + 1, false)
      else Reads(stream, len, split, next, calls + 1)
  }

  datatype Received = Received(packet: Packet, rest: seq<byte>, calls: nat)

  function HeaderFrom(b: seq<byte>): (h: Header)
    requires |b| == HEADER_SIZE
  {
    Header(UnpackUnsigned(b[..1]), UnpackUnsigned(b[1..2]), UnpackUnsigned(b[2..3]), UnpackUnsigned(b[3..]))
  }

  function ReadHeader(stream: seq<byte>, split: nat -> nat, calls: nat): (r: (Header, Reading))
    ensures r.1.got <= |stream|
  {
    var reading := Reads(stream, HEADER_SIZE, split, 0, calls);
    (if reading.got == HEADER_SIZE then HeaderFrom(stream[..HEADER_SIZE]) else NO_HEADER, reading)
  }

  /** protocol_packet_receive; the payload is what was stored in its buffer. */
  function ReadPacket(stream: seq<byte>, split: nat -> nat, calls: nat): Received {
    var (h, first) := ReadHeader(stream, split, calls);
    var rest := stream[first.got..];
    if h.opcode == OP_UNDEFINED then Received(Packet(h, []), rest, first.calls)
    else
      var second := Reads(rest, h.msgsize, split, 0, first.calls);
      Received(Packet(h, rest[..second.got]), rest[second.got..], second.calls)
  }

  function ReadPackets(n: nat, stream: seq<byte>, split: nat -> nat, calls: nat): (ps: seq<Packet>)
    ensures |ps| == n
  {
    if n == 0 then []
    else
      var r := ReadPacket(stream, split, calls);
      [r.packet] + ReadPackets(n - 1, r.rest, split, r.calls)
  }

  // ----- One read

  /** Whether a read of len bytes can stop before it has them. */
  predicate Exposed(len: nat, stream: seq<byte>)
    requires len <= |stream|
  {
    len == BUFFER_CAPACITY && 0 in stream[..len - 1]
  }

  lemma {:induction false} ReadsAll(stream: seq<byte>, len: nat, split: nat -> nat, got: nat, calls: nat)
    requires got <= len <= |stream| && !Exposed(len, stream)
    ensures var r := Reads(stream, len, split, got, calls); r.got == len && !r.dropped
    decreases len - got
  {
    if got < len {
      var next := got + Piece(split, calls, if len < |stream| then len - got else |stream| - got);
      if len != BUFFER_CAPACITY || stream[next - 1] != 0 {
        ReadsAll(stream, len, split, next, calls + 1);
      }
    }
  }

  /** A network that hands over k bytes at a time. */
  function Even(k: nat): nat -> nat { _ => k }

  /** Exactly the reads of 1024 bytes with a NUL before the last one can be cut short. */
  lemma ReadsAllIff(stream: seq<byte>, len: nat)
    requires len <= |stream|
    ensures (forall split: nat -> nat, calls: nat :: Reads(stream, len, split, 0, calls).got == len)
            <==> !(len == 1024 && 0 in stream[..len - 1])
  {
    if Exposed(len, stream) {
      var j :| 0 <= j < len - 1 && stream[..len - 1][j] == 0;
      assert Reads(stream, len, Even(j + 1), 0, 0).got == j + 1;
    } else {
      forall split: nat -> nat, calls: nat ensures Reads(stream, len, split, 0, calls).got == len {
        ReadsAll(stream, len, split, 0, calls);
      }
    }
  }

  lemma {:induction false} ReadsShort(stream: seq<byte>, len: nat, split: nat -> nat, got: nat, calls: nat)
    requires got <= |stream| < len && !(len == BUFFER_CAPACITY && 0 in stream[got..])
    ensures var r := Reads(stream, len, split, got, calls); r.got == |stream| && r.dropped
    decreases len - got
  {
    if got < |stream| {
      var n := Piece(split, calls, |stream| - got);
      assert stream[got + n - 1] in stream[got..] && stream[got..][n..] == stream[got + n..];
      ReadsShort(stream, len, split, got + n, calls + 1);
    }
  }

  /** A connection closed early is reported as dropped, with all that came, over every
      network, if and only if the read is not one of 1024 bytes and a NUL among those that
      came. */
  lemma ReadsShortIff(stream: seq<byte>, len: nat)
    requires |stream| < len
    ensures (forall split: nat -> nat, calls: nat ::
               var r := Reads(stream, len, split, 0, calls); r.got == |stream| && r.dropped)
            <==> !(len == 1024 && 0 in stream)
  {
    if len == BUFFER_CAPACITY && 0 in stream {
      var j :| 0 <= j < |stream| && stream[j] == 0;
      assert !Reads(stream, len, Even(j + 1), 0, 0).dropped;
    } else {
      assert stream[0..] == stream;
      forall split: nat -> nat, calls: nat
        ensures Reads(stream, len, split, 0, calls).got == |stream| && Reads(stream, len, split, 0, calls).dropped
      {
        ReadsShort(stream, len, split, 0, calls);
      }
    }
  }

  // ----- One packet

  /** A header crosses with its length reduced to 32 bits. */
  lemma HeaderBack(h: Header)
    ensures |HeaderBytes(h)| == HEADER_SIZE
    ensures HeaderFrom(HeaderBytes(h)) == h.(msgsize := WrapUnsigned(4, h.msgsize))
  {
    var a, b, c, d := PackBytes(1, h.syspid), PackBytes(1, h.usrpid), PackBytes(1, h.opcode), PackBytes(4, h.msgsize);
    FourFields(h.syspid, h.usrpid, h.opcode, h.msgsize);
    var bytes := HeaderBytes(h);
    assert bytes == a + (b + (c + d));
    assert bytes[..1] == a && bytes[1..2] == b && bytes[2..3] == c && bytes[3..] == d;
    SpanValues();
    UnpackPackUnsigned(1, h.syspid);
    UnpackPackUnsigned(1, h.usrpid);
    UnpackPackUnsigned(1, h.opcode);
    UnpackPackUnsigned(4, h.msgsize);
  }

  /** The packets every network brings across. */
  predicate Safe(p: Packet) {
    && |p.payload| < 0x1_0000_0000
    && (p.header.opcode == OP_UNDEFINED ==> p.payload == [])
    && !Exposed(|p.payload|, p.payload)
  }

  /** Reading a packet off a stream that starts with it: its header, reduced. */
  lemma ReadsHeader(p: Packet, rest: seq<byte>, split: nat -> nat, calls: nat)
    ensures var stream := PacketBytes(p) + rest;
            var (h, reading) := ReadHeader(stream, split, calls);
            && h == p.header.(msgsize := WrapUnsigned(4, p.header.msgsize))
            && reading.got == HEADER_SIZE
            && stream[HEADER_SIZE..] == p.payload + rest
  {
    HeaderBack(p.header);
    var stream := PacketBytes(p) + rest;
    assert stream == HeaderBytes(p.header) + (p.payload + rest);
    assert stream[..HEADER_SIZE] == HeaderBytes(p.header);
    ReadsAll(stream, HEADER_SIZE, split, 0, calls);
  }

  lemma PacketBack(p: Packet, rest: seq<byte>, split: nat -> nat, calls: nat)
    requires p.WellFormed() && Safe(p)
    ensures var r := ReadPacket(PacketBytes(p) + rest, split, calls); r.packet == p && r.rest == rest
  {
    ReadsHeader(p, rest, split, calls);
    SpanValues();
    var after := p.payload + rest;
    if p.header.opcode == OP_UNDEFINED {
      assert after == rest;
    } else {
      assert after[..|p.payload|] == p.payload && after[|p.payload|..] == rest;
      var k := if |p.payload| == 0 then 0 else |p.payload| - 1;
      assert after[..k] == p.payload[..k];
      ReadsAll(after, |p.payload|, split, 0, ReadHeader(PacketBytes(p) + rest, split, calls).1.calls);
    }
  }

  /** The size of the pieces that breaks an unsafe packet. */
  function BadPiece(p: Packet): (k: nat)
    ensures Exposed(|p.payload|, p.payload) ==> 1 <= k < |p.payload| && p.payload[k - 1] == 0
  {
    if !Exposed(|p.payload|, p.payload) then 1
    else FirstNul(p.payload[..|p.payload| - 1]) + 1
  }

  function FirstNul(b: seq<byte>): (j: nat)
    requires 0 in b
    ensures j < |b| && b[j] == 0 && 0 !in b[..j]
  {
    if b[0] == 0 then 0
    else
      assert b == [b[0]] + b[1..];
      var j := 1 + FirstNul(b[1..]);
      assert b[..j] == [b[0]] + b[1..][..j - 1];
      j
  }

  lemma UnsafeBreaks(p: Packet, rest: seq<byte>, calls: nat)
    requires p.WellFormed() && !Safe(p)
    ensures ReadPacket(PacketBytes(p) + rest, Even(BadPiece(p)), calls).packet != p
  {
    var split := Even(BadPiece(p));
    ReadsHeader(p, rest, split, calls);
    SpanValues();
    var (h, first) := ReadHeader(PacketBytes(p) + rest, split, calls);
    if h == p.header && h.opcode != OP_UNDEFINED {
      var after, k := p.payload + rest, BadPiece(p);
      assert after[k - 1] == p.payload[k - 1];
      assert Reads(after, h.msgsize, split, 0, first.calls).got == k;
    }
  }

  /** A packet, whatever follows it, is received as sent over every network if and only
      if it is safe: at most 2^32 - 1 bytes, a defined opcode unless empty, and not
      1024 bytes with a NUL before the last. */
  lemma PacketBackIff(p: Packet, rest: seq<byte>)
    requires p.WellFormed()
    ensures (forall split: nat -> nat, calls: nat :: ReadPacket(PacketBytes(p) + rest, split, calls).packet == p)
            <==> Safe(p)
  {
    if Safe(p) {
      forall split: nat -> nat, calls: nat ensures ReadPacket(PacketBytes(p) + rest, split, calls).packet == p {
        PacketBack(p, rest, split, calls);
      }
    } else {
      UnsafeBreaks(p, rest, 0);
    }
  }

  // ----- Connections that close

  /** The peer closes before a header is whole: no part of the packet arrives and its
      opcode is the undefined one, 0, by which a lost client is noticed. */
  lemma ClosedInHeader(stream: seq<byte>, split: nat -> nat, calls: nat)
    requires |stream| < HEADER_SIZE
    ensures var r := ReadPacket(stream, split, calls);
            && r.packet == Packet(Header(0, 0, 0, 0), []) && r.packet.header.opcode == OP_UNDEFINED && r.rest == []
  {
    ReadsShort(stream, HEADER_SIZE, split, 0, calls);
  }

  /** It closes within the payload: the header promises all of it, what came is there, and
      nothing tells the receiver. */
  lemma ClosedInPayload(p: Packet, k: nat, split: nat -> nat, calls: nat)
    requires p.WellFormed() && k < |p.payload| < 0x1_0000_0000 && p.header.opcode != OP_UNDEFINED
    requires !(|p.payload| == BUFFER_CAPACITY && 0 in p.payload[..k])
    ensures var r := ReadPacket(HeaderBytes(p.header) + p.payload[..k], split, calls);
            r.packet == Packet(p.header, p.payload[..k]) && r.rest == []
  {
    var cut := Packet(p.header, p.payload[..k]);
    assert PacketBytes(cut) + [] == HeaderBytes(p.header) + p.payload[..k];
    ReadsHeader(cut, [], split, calls);
    SpanValues();
    var first := ReadHeader(PacketBytes(cut) + [], split, calls).1;
    assert p.payload[..k] + [] == p.payload[..k] && p.payload[..k][0..] == p.payload[..k];
    ReadsShort(p.payload[..k], |p.payload|, split, 0, first.calls);
  }

  /** So a connection that closes after some bytes of a packet is noticed if and only if it
      closes in the header, or the packet's opcode is the undefined one anyway. */
  lemma ClosingIsNoticedIff(p: Packet, k: nat, split: nat -> nat, calls: nat)
    requires p.WellFormed() && k < |PacketBytes(p)|
    ensures ReadPacket(PacketBytes(p)[..k], split, calls).packet.header.opcode == OP_UNDEFINED
            <==> k < HEADER_SIZE || p.header.opcode == OP_UNDEFINED
  {
    HeaderBack(p.header);
    if k < HEADER_SIZE {
      ClosedInHeader(PacketBytes(p)[..k], split, calls);
    } else {
      var cut := Packet(p.header, p.payload[..k - HEADER_SIZE]);
      assert PacketBytes(p)[..k] == PacketBytes(cut) + [];
      ReadsHeader(cut, [], split, calls);
    }
  }

  /** The bytes of a header: who sends, for whom, what, and the length, most significant
      byte first. */
  lemma HeaderLayout(h: Header)
    ensures var b := HeaderBytes(h);
            && |b| == 7 && b[0] == h.syspid && b[1] == h.usrpid && b[2] == h.opcode
            && b[3] == h.msgsize / 0x100_0000 % 256 && b[4] == h.msgsize / 0x1_0000 % 256
            && b[5] == h.msgsize / 0x100 % 256 && b[6] == h.msgsize % 256
  {
    HeaderBack(h);
    FourFields(h.syspid, h.usrpid, h.opcode, h.msgsize);
    LengthLayout(h.msgsize);
    OneByte(h.syspid);
    OneByte(h.usrpid);
    OneByte(h.opcode);
  }

  lemma OneByte(i: byte)
    ensures PackBytes(1, i) == [i]
  {
    PackedByte(1, i, 0);
  }

  lemma LengthLayout(n: nat)
    ensures PackBytes(4, n) == [n / 0x100_0000 % 256, n / 0x1_0000 % 256, n / 0x100 % 256, n % 256]
  {
    SpanValues();
    assert Span(3) == 0x100_0000;
    PackedByte(4, n, 0);
    PackedByte(4, n, 1);
    PackedByte(4, n, 2);
    PackedByte(4, n, 3);
  }

  // ----- A whole conversation

  /** One packet of a stream that is received as sent leaves the stream of the others. */
  lemma ReadsFirst(ps: seq<Packet>, split: nat -> nat, calls: nat)
    requires ps != [] && ps[0].WellFormed() && Safe(ps[0])
    ensures var r := ReadPacket(StreamOf(ps), split, calls);
            ReadPackets(|ps|, StreamOf(ps), split, calls)
                == [ps[0]] + ReadPackets(|ps| - 1, StreamOf(ps[1..]), split, r.calls)
  {
    PacketBack(ps[0], StreamOf(ps[1..]), split, calls);
  }

  lemma HeadStays(ps: seq<Packet>, rest: seq<Packet>)
    requires ps != []
    ensures [ps[0]] + rest == ps <==> rest == ps[1..]
  {
    assert ([ps[0]] + rest)[1..] == rest && [ps[0]] + ps[1..] == ps;
  }

  /** Behind a safe packet the others decide. */
  lemma RestDecides(ps: seq<Packet>, split: nat -> nat, calls: nat)
    requires ps != [] && ps[0].WellFormed() && Safe(ps[0])
    ensures var calls' := ReadPacket(StreamOf(ps), split, calls).calls;
            ReadPackets(|ps|, StreamOf(ps), split, calls) == ps
            <==> ReadPackets(|ps[1..]|, StreamOf(ps[1..]), split, calls') == ps[1..]
  {
    var calls' := ReadPacket(StreamOf(ps), split, calls).calls;
    ReadsFirst(ps, split, calls);
    HeadStays(ps, ReadPackets(|ps| - 1, StreamOf(ps[1..]), split, calls'));
  }

  lemma {:induction false} PacketsBack(ps: seq<Packet>, split: nat -> nat, calls: nat)
    requires forall p :: p in ps ==> p.WellFormed() && Safe(p)
    ensures ReadPackets(|ps|, StreamOf(ps), split, calls) == ps
  {
    if ps != [] {
      RestDecides(ps, split, calls);
      PacketsBack(ps[1..], split, ReadPacket(StreamOf(ps), split, calls).calls);
    }
  }

  lemma FirstBreaks(ps: seq<Packet>, calls: nat)
    requires ps != [] && ps[0].WellFormed() && !Safe(ps[0])
    ensures ReadPackets(|ps|, StreamOf(ps), Even(BadPiece(ps[0])), calls) != ps
  {
    var split := Even(BadPiece(ps[0]));
    UnsafeBreaks(ps[0], StreamOf(ps[1..]), calls);
    assert ReadPackets(|ps|, StreamOf(ps), split, calls)[0] == ReadPacket(StreamOf(ps), split, calls).packet;
  }

  lemma {:induction false} UnsafeBreaksAll(ps: seq<Packet>, bad: nat, calls: nat)
    requires bad < |ps| && ps[bad].WellFormed() && !Safe(ps[bad])
    requires forall i :: 0 <= i < bad ==> ps[i].WellFormed() && Safe(ps[i])
    ensures ReadPackets(|ps|, StreamOf(ps), Even(BadPiece(ps[bad])), calls) != ps
  {
    var split, rest := Even(BadPiece(ps[bad])), ps[1..];
    if bad == 0 {
      FirstBreaks(ps, calls);
    } else {
      RestDecides(ps, split, calls);
      UnsafeBreaksAll(rest, bad - 1, ReadPacket(StreamOf(ps), split, calls).calls);
    }
  }

  lemma {:induction false} FirstUnsafe(ps: seq<Packet>) returns (bad: nat)
    requires exists p :: p in ps && !Safe(p)
    ensures bad < |ps| && !Safe(ps[bad]) && forall i :: 0 <= i < bad ==> Safe(ps[i])
  {
    if !Safe(ps[0]) {
      bad := 0;
    } else {
      assert ps == [ps[0]] + ps[1..];
      bad := FirstUnsafe(ps[1..]);
      bad := bad + 1;
    }
  }

  /** Packets sent one after another are received the same, however the network cuts
      the stream, if and only if every one of them is safe. */
  lemma PacketsBackIff(ps: seq<Packet>)
    requires forall p :: p in ps ==> p.WellFormed()
    ensures (forall split: nat -> nat, calls: nat :: ReadPackets(|ps|, StreamOf(ps), split, calls) == ps)
            <==> (forall p :: p in ps ==> Safe(p))
  {
    if forall p :: p in ps ==> Safe(p) {
      forall split: nat -> nat, calls: nat ensures ReadPackets(|ps|, StreamOf(ps), split, calls) == ps {
        PacketsBack(ps, split, calls);
      }
    } else {
      var bad := FirstUnsafe(ps);
      UnsafeBreaksAll(ps, bad, 0);
    }
  }

  // ----- The loops

  /** A buffer that held was, after k bytes of what was sent. */
  ghost predicate Filled(b: seq<byte>, was: seq<byte>, sent: seq<byte>, k: nat) {
    k <= |sent| && k <= |was| && b == sent[..k] + was[k..]
  }

  lemma Stored(sent: seq<byte>, was: seq<byte>, received: nat, n: nat)
    requires received + n <= |sent| && received + n <= |was|
    ensures var b := sent[..received] + was[received..];
            Filled(b[..received] + sent[received..][..n] + b[received + n..], was, sent, received + n)
  {
  }

  lemma ReadsOn(stream: seq<byte>, len: nat, split: nat -> nat, got: nat, calls: nat, n: nat)
    requires got < len && got <= |stream|
    requires n == if got == |stream| then 0
             else Piece(split, calls, if len < |stream| then len - got else |stream| - got)
    ensures Reads(stream, len, split, got, calls)
            == if n == 0 then Reading(got, calls + 1, true)
               else if len == BUFFER_CAPACITY && stream[got + n - 1] == 0 then Reading(got + n, calls + 1, false)
               else Reads(stream, len, split, got + n, calls + 1)
  {
  }

  /** One direction of a connection. */
  class Connection {
    var stream: seq<byte>
    var calls: nat
    const split: nat -> nat

    constructor (split: nat -> nat)
      ensures stream == [] && calls == 0 && this.split == split
    {
      stream, calls, this.split := [], 0, split;
    }

    /** send of the operating system: some of the bytes, at least one. */
    method Send(buf: array<byte>, from: nat, len: nat) returns (n: nat)
      requires 0 < len && from + len <= buf.Length
      modifies this
      ensures n == Piece(split, old(calls), len)
      ensures stream == old(stream) + buf[from..from + n] && calls == old(calls) + 1
    {
      n := Piece(split, calls, len);
      stream, calls := stream + buf[from..from + n], calls + 1;
    }

    /** recv of the operating system: 0 once the peer has closed, else what is there,
        at most len bytes. */
    method Recv(buf: array<byte>, from: nat, len: nat) returns (n: nat)
      requires 0 < len && from + len <= buf.Length
      modifies this, buf
      ensures n == if old(stream) == [] then 0
                   else Piece(split, old(calls), if len < |old(stream)| then len else |old(stream)|)
      ensures stream == old(stream)[n..] && calls == old(calls) + 1
      ensures buf[..] == old(buf[..from]) + old(stream)[..n] + old(buf[from + n..])
    {
      n := if stream == [] then 0 else Piece(split, calls, if len < |stream| then len else |stream|);
      PutBytes(buf, from, stream[..n]);
      stream, calls := stream[n..], calls + 1;
    }

    /** sendall: every byte, once and in order, however many turns it takes. */
    method SendAll(buf: array<byte>, len: nat) returns (sent: nat)
      requires len <= buf.Length
      modifies this
      ensures sent == len && stream == old(stream) + buf[..len]
    {
      sent := 0;
      while sent < len
        invariant sent <= len && stream == old(stream) + buf[..sent]
      {
        var n := Send(buf, sent, len - sent);
        assert buf[..sent + n] == buf[..sent] + buf[sent..sent + n];
        sent := sent + n;
      }
    }

    /** After k bytes of what was sent have been moved to a buffer that held was. */
    ghost predicate Midway(buf: array<byte>, was: seq<byte>, sent: seq<byte>, k: nat)
      reads this, buf
    {
      k <= |sent| && stream == sent[k..] && Filled(buf[..], was, sent, k)
    }

    /** One turn of recvall. */
    method ReceiveMore(buf: array<byte>, received: nat, len: nat, ghost sent: seq<byte>, ghost was: seq<byte>)
      returns (n: nat, stop: bool)
      requires received < len <= buf.Length && Midway(buf, was, sent, received)
      modifies this, buf
      ensures received + n <= len && Midway(buf, was, sent, received + n)
      ensures Reads(sent, len, split, received, old(calls))
              == if n == 0 || stop then Reading(received + n, calls, n == 0)
                 else Reads(sent, len, split, received + n, calls)
    {
      ghost var turn := calls;
      n := Recv(buf, received, len - received);
      assert sent[received..][n..] == sent[received + n..];
      Stored(sent, was, received, n);
      ReadsOn(sent, len, split, received, turn, n);
      stop := false;
      if n > 0 {
        assert buf[received + n - 1] == buf[..][received + n - 1] == sent[received + n - 1];
        stop := len == BUFFER_CAPACITY && buf[received + n - 1] == 0;
      }
    }

    method ReceiveLoop(buf: array<byte>, len: nat, ghost sent: seq<byte>, ghost was: seq<byte>)
      returns (received: nat, ghost r: Reading)
      requires len <= buf.Length && Midway(buf, was, sent, 0)
      modifies this, buf
      ensures r == Reads(sent, len, split, 0, old(calls)) && calls == r.calls
      ensures received == if r.dropped then 0 else r.got
      ensures Midway(buf, was, sent, r.got)
    {
      received := 0;
      r := Reads(sent, len, split, 0, calls);
      while received < len
        invariant received <= len && Midway(buf, was, sent, received)
        invariant r == Reads(sent, len, split, received, calls)
      {
        var n, stop := ReceiveMore(buf, received, len, sent, was);
        if n == 0 { return 0, r; }
        received := received + n;
        if stop { return received, r; }
      }
    }

    /** recvall. */
    method ReceiveAll(buf: array<byte>, len: nat) returns (received: nat, ghost r: Reading)
      requires len <= buf.Length
      modifies this, buf
      ensures r == Reads(old(stream), len, split, 0, old(calls))
      ensures received == if r.dropped then 0 else r.got
      ensures Midway(buf, old(buf[..]), old(stream), r.got) && calls == r.calls
    {
      assert buf[..] == stream[..0] + buf[..][0..];
      received, r := ReceiveLoop(buf, len, stream, buf[..]);
    }

    method SendHeader(h: Header)
      modifies this
      ensures stream == old(stream) + HeaderBytes(h)
    {
      var buffer := new byte[HEADER_SIZE];
      HeaderBack(h);
      SizeIsSum("CCCL", HeaderArgs(h));
      var size := PackInto(buffer, 0, "CCCL", HeaderArgs(h));
      assert buffer[..size] == HeaderBytes(h);
      var _ := SendAll(buffer, size);
    }

    method SendPacket(h: Header, payload: array<byte>)
      requires h.msgsize <= payload.Length
      modifies this
      ensures stream == old(stream) + PacketBytes(Packet(h, payload[..h.msgsize]))
    {
      SendHeader(h);
      var _ := SendAll(payload, h.msgsize);
    }

    method ReceiveHeader() returns (h: Header, ghost r: Reading)
      modifies this
      ensures (h, r) == ReadHeader(old(stream), split, old(calls))
      ensures stream == old(stream)[r.got..] && calls == r.calls
      ensures |old(stream)| < HEADER_SIZE ==> h == Header(0, 0, 0, 0)
    {
      var buffer := new byte[HEADER_SIZE];
      var received;
      h := NO_HEADER;
      received, r := ReceiveAll(buffer, HEADER_SIZE);
      if received > 0 {
        HeaderReadWhole(old(stream), split, old(calls));
        assert buffer[..] == old(stream)[..HEADER_SIZE];
        h := HeaderFrom(buffer[..]);
      } else {
        HeaderReadWhole(old(stream), split, old(calls));
      }
    }

    /** The payload's buffer holds what was received at its start. */
    method ReceivePacket() returns (h: Header, payload: array?<byte>, ghost r: Received)
      modifies this
      ensures r == ReadPacket(old(stream), split, old(calls))
      ensures h == r.packet.header && stream == r.rest && calls == r.calls
      ensures payload == null <==> h.opcode == OP_UNDEFINED
      ensures |old(stream)| < HEADER_SIZE ==> h == Header(0, 0, 0, 0) && payload == null && stream == []
      ensures payload != null ==> fresh(payload) && payload.Length == h.msgsize && r.packet.payload <= payload[..]
    {
      ghost var first, second;
      r := ReadPacket(stream, split, calls);
      if |stream| < HEADER_SIZE { ClosedInHeader(stream, split, calls); }
      h, first := ReceiveHeader();
      payload := null;
      if h.opcode != OP_UNDEFINED {
        var buffer := new byte[h.msgsize];
        var received;
        received, second := ReceiveAll(buffer, h.msgsize);
        payload := buffer;
      }
    }
  }

  /** A header is read whole or not at all. */
  lemma HeaderReadWhole(stream: seq<byte>, split: nat -> nat, calls: nat)
    ensures var r := ReadHeader(stream, split, calls).1;
            (r.got == HEADER_SIZE <==> !r.dropped) && (r.dropped ==> r.got == |stream|)
  {
    if |stream| >= HEADER_SIZE {
      ReadsAll(stream, HEADER_SIZE, split, 0, calls);
    } else {
      ReadsShort(stream, HEADER_SIZE, split, 0, calls);
    }
  }
}
