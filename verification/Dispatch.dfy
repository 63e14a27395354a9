/**
 The select loop of server.c on values: how each ready descriptor becomes a handler call, through
 the shared receive buffer and the single receiveID flag.
 */
module Dispatch {
  import opened Bytes
  import opened Broker
  import opened Wire

  /** What the system calls deliver, in the order the loop meets it. */
  datatype Input =
    | Wake  // select returned: the receive buffer is cleared
    | Connection(fd: int)  // accept returned this descriptor
    | Arrived(data: seq<byte>, ip: seq<byte>, port: nat)  // a datagram and its sender
    | Received(fd: int, data: seq<byte>)  // recv on a client descriptor

  datatype Server = Server(tcp: int, udp: int, reg: Registry, receiveID: bool, buffer: seq<byte>)

  predicate Sound(s: Server) {
    |s.buffer| == BUFFER_SERVER_LEN
  }

  function Boot(tcp: int, udp: int): (s: Server)
    ensures Sound(s)
  {
    Server(tcp, udp, Registry([], {0, tcp, udp}, if tcp > udp then tcp else udp), false, Zeros(BUFFER_SERVER_LEN))
  }

  /** A server as it is when it has just started, whatever its descriptors. */
  predicate Fresh(s: Server) {
    Sound(s) && s.reg.clients == [] && !s.receiveID && s.buffer[UNSUBSCRIBE_LEN] == 0
  }

  /** What recv and recvfrom can return into a buffer of 1551 bytes. */
  predicate Shape(i: Input) {
    match i
    case Wake => true
    case Connection(fd) => fd >= 0
    case Arrived(data, ip, port) => |data| <= BUFFER_SERVER_LEN && Dotted(ip) && port < U16
    case Received(fd, data) => fd >= 0 && |data| <= BUFFER_SERVER_LEN
  }

  function BufferAfter(s: Server, i: Input): (r: seq<byte>)
    requires Sound(s) && Shape(i)
    ensures |r| == BUFFER_SERVER_LEN
  {
    match i
    case Wake => Zeros(BUFFER_SERVER_LEN)
    case Connection(_) => s.buffer
    case Arrived(data, _, _) => Field(data, BUFFER_SERVER_LEN)
    case Received(_, data) => Overlay(s.buffer, data)
  }

  /** The handler call an input leads to. */
  function EventOf(s: Server, i: Input): Event
    requires Sound(s) && Shape(i)
  {
    var buf := BufferAfter(s, i);
    match i
    case Wake => Ignored
    case Connection(fd) => Accept(fd)
    case Arrived(_, ip, port) => Publish(CStr(buf[..TOPIC_LEN]), FrameOf(buf, ip, port))
    case Received(fd, data) =>
      if data == [] then Disconnect(fd)
      else if s.receiveID then Identify(fd, CStr(buf))
      else DecodeRequest(fd, buf)
  }

  function FlagAfter(s: Server, i: Input): bool {
    match i
    case Connection(_) => true
    case Received(_, data) => s.receiveID && data == []
    case _ => s.receiveID
  }

  function React(s: Server, i: Input): (r: Server)
    requires Sound(s) && Shape(i)
    ensures Sound(r)
  {
    s.(reg := Handle(s.reg, EventOf(s, i)), receiveID := FlagAfter(s, i), buffer := BufferAfter(s, i))
  }

  predicate Shapes(ins: seq<Input>) {
    forall i :: 0 <= i < |ins| ==> Shape(ins[i])
  }

  function Serve(s: Server, ins: seq<Input>): (r: Server)
    requires Sound(s) && Shapes(ins)
    ensures Sound(r)
  {
    if ins == [] then s else React(Serve(s, ins[..|ins| - 1]), ins[|ins| - 1])
  }

  /** The handler calls of a whole run. */
  function Calls(s: Server, ins: seq<Input>): (es: seq<Event>)
    requires Sound(s) && Shapes(ins)
    ensures |es| == |ins| && RealDescriptors(es)
  {
    if ins == [] then []
    else Calls(s, ins[..|ins| - 1]) + [EventOf(Serve(s, ins[..|ins| - 1]), ins[|ins| - 1])]
  }

  /** A server run is a broker run on its handler calls. */
  lemma {:induction false} ServeIsRun(s: Server, ins: seq<Input>)
    requires Sound(s) && Shapes(ins)
    ensures Serve(s, ins).reg == Run(s.reg, Calls(s, ins))
  {
    if ins != [] {
      ServeIsRun(s, ins[..|ins| - 1]);
      var es := Calls(s, ins);
      assert es[..|es| - 1] == Calls(s, ins[..|ins| - 1]);
    }
  }

  lemma {:induction false} ServeConcat(s: Server, a: seq<Input>, b: seq<Input>)
    requires Sound(s) && Shapes(a) && Shapes(b)
    ensures Shapes(a + b) && Serve(s, a + b) == Serve(Serve(s, a), b)
  {
    if b == [] {
      assert a + b == a;
    } else {
      ServeConcat(s, a, b[..|b| - 1]);
      assert (a + b)[..|a + b| - 1] == a + b[..|b| - 1];
    }
  }

  /**
   The ID field of a client record takes the first ten bytes of the buffer. It holds a terminated
   copy of the ID exactly when the ID is shorter than the field.
   */
  lemma IdFieldHoldsIff(buf: seq<byte>)
    requires |buf| == BUFFER_SERVER_LEN
    ensures 0 in buf[..ID_LEN] <==> |CStr(buf)| < ID_LEN
    ensures |CStr(buf)| < ID_LEN ==> CStr(buf[..ID_LEN]) == CStr(buf)
  {
    var id := CStr(buf);
    if |id| < ID_LEN {
      assert buf[..ID_LEN][|id|] == 0;
      var rest := buf[|id|..ID_LEN];
      assert buf[..ID_LEN] == id + rest;
      CStrReadsBack(id, rest);
    } else {
      assert forall k :: 0 <= k < ID_LEN ==> buf[..ID_LEN][k] == id[k];
    }
  }

  // ---- the byte an unsubscription does not carry ----

  /** The input leaves byte 51 of the receive buffer alone or clear. */
  predicate Quiet(i: Input) {
    match i
    case Arrived(data, _, _) => |data| <= UNSUBSCRIBE_LEN || data[UNSUBSCRIBE_LEN] == 0
    case Received(_, data) => |data| <= UNSUBSCRIBE_LEN || data[UNSUBSCRIBE_LEN] == 0
    case _ => true
  }

  /** Requests the client builds for topics of legal length are quiet; datagrams need not be. */
  lemma {:induction false} RequestsAreQuiet(fd: int, topic: seq<byte>, sf: int)
    requires |topic| <= TOPIC_LEN && -0x8000_0000 <= sf < 0x8000_0000
    ensures Quiet(Received(fd, SubscribeRequest(topic, sf))) && Quiet(Received(fd, UnsubscribeRequest(topic)))
  {
    assert SubscribeRequest(topic, sf)[UNSUBSCRIBE_LEN] == Field(topic, TOPIC_LEN + 1)[TOPIC_LEN];
  }

  lemma {:induction false} ByteStaysClear(s: Server, ins: seq<Input>)
    requires Sound(s) && Shapes(ins) && s.buffer[UNSUBSCRIBE_LEN] == 0
    requires forall n :: 0 <= n < |ins| ==> Quiet(ins[n])
    ensures Serve(s, ins).buffer[UNSUBSCRIBE_LEN] == 0
  {
    if ins != [] {
      ByteStaysClear(s, ins[..|ins| - 1]);
    }
  }

  /**
   After the buffer is cleared and until a datagram leaves something there, every unsubscription of
   a legal topic is understood, however the inputs of the round follow each other.
   */
  lemma {:induction false} QuietRoundsUnderstandUnsubscriptions(s: Server, ins: seq<Input>, fd: int, topic: seq<byte>)
    requires Sound(s) && Shapes(ins) && (forall n :: 0 <= n < |ins| ==> Quiet(ins[n]))
    requires fd >= 0 && |topic| <= TOPIC_LEN && 0 !in topic
    requires !Serve(React(s, Wake), ins).receiveID
    ensures EventOf(Serve(React(s, Wake), ins), Received(fd, UnsubscribeRequest(topic))) == Unsubscribe(fd, topic)
  {
    var t := React(s, Wake);
    ByteStaysClear(t, ins);
    UnsubscribeRoundTrip(fd, topic, Serve(t, ins).buffer);
  }

  // ---- every input, byte by byte ----

  /** `m` is the receive buffer after a message has been received over what it held. */
  predicate Received1551(s: Server, data: seq<byte>, m: seq<byte>) {
    && |m| == |s.buffer| == 1551 && |data| <= 1551
    && forall k :: 0 <= k < 1551 ==> m[k] == if k < |data| then data[k] else s.buffer[k]
  }

  /**
   Any message while no ID is awaited: 's' and 'u' alone make it a request, whose topic is the string
   from byte 1 in at most 51 bytes and whose flag is the int in bytes 52 to 55; any other first
   byte changes nothing.
   */
  lemma {:induction false} EveryMessageIsRead(s: Server, fd: int, data: seq<byte>, m: seq<byte>)
    requires Sound(s) && fd >= 0 && data != [] && !s.receiveID && Received1551(s, data, m)
    ensures var e := EventOf(s, Received(fd, data));
            && (e.Subscribe? <==> data[0] == 115) && (e.Unsubscribe? <==> data[0] == 117)
            && (e.Subscribe? ==>
                  && e.fd == fd && IsString(e.topic, m, 1, 51) && -0x8000_0000 <= e.sf < 0x8000_0000
                  && e.sf % 0x1_0000_0000 == Base256(m[55], m[54], m[53], m[52]))
            && (e.Unsubscribe? ==> e.fd == fd && IsString(e.topic, m, 1, 51))
            && (data[0] != 115 && data[0] != 117 ==> React(s, Received(fd, data)).reg == s.reg)
  {
    hide FromHostInt, Base256, StepAll;
    assert Overlay(s.buffer, data) == m;
    CStrIsString(m, 1, 51);
    var flag := m[52..56];
    HostOrder(flag, 0);
    assert flag[0] == m[52] && flag[1] == m[53] && flag[2] == m[54] && flag[3] == m[55];
    IgnoredChangesNothing(s.reg);
  }

  lemma IgnoredChangesNothing(s: Registry)
    ensures Handle(s, Ignored) == s
  {
    assert StepAll(s.clients, Ignored) + [] == s.clients;
  }

  /** Any message while an ID is awaited: the string from byte 0. */
  lemma {:induction false} EveryIdIsRead(s: Server, fd: int, data: seq<byte>, m: seq<byte>)
    requires Sound(s) && fd >= 0 && data != [] && s.receiveID && Received1551(s, data, m)
    ensures var e := EventOf(s, Received(fd, data)); e.Identify? && e.fd == fd && IsString(e.id, m, 0, 1551)
  {
    assert Overlay(s.buffer, data) == m;
    CStrIsString(m, 0, 1551);
    assert m[0..0 + 1551] == m;
  }

  /**
   Any datagram is published, whatever the buffer held: under the string in its first 50 bytes, in a
   frame that begins with it, padded with NULs, and goes on with address, port and separator.
   */
  lemma {:induction false} EveryDatagramIsPublished(s: Server, data: seq<byte>, ip: seq<byte>, port: nat)
    requires Sound(s) && |data| <= 1551 && Dotted(ip) && port < 65536
    ensures var e := EventOf(s, Arrived(data, ip, port));
            && e.Publish? && |e.frame| == 1570 && IsString(e.topic, e.frame, 0, 50)
            && (forall k :: 0 <= k < 1551 ==> e.frame[k] == if k < |data| then data[k] else 0)
            && (forall k :: 1551 <= k < 1567 ==> e.frame[k] == if k < 1551 + |ip| then ip[k - 1551] else 0)
            && Base256(0, 0, e.frame[1567], e.frame[1568]) == port && e.frame[1569] == 13
  {
    hide FrameOf, Base256;
    var buf := Field(data, BUFFER_SERVER_LEN);
    FrameBytes(buf, ip, port);
    var f := FrameOf(buf, ip, port);
    assert buf[..50] == f[0..50];
    CStrIsString(f, 0, 50);
  }

  // ---- buffer and flag over whole runs ----

  /** The input decides what byte `k` of the receive buffer is. */
  predicate Writes(i: Input, k: nat) {
    match i
    case Wake => true
    case Connection(_) => false
    case Arrived(_, _, _) => true
    case Received(_, data) => k < |data|
  }

  function Written(i: Input, k: nat): byte
    requires Writes(i, k)
  {
    match i
    case Wake => 0
    case Arrived(data, _, _) => if k < |data| then data[k] else 0
    case Received(_, data) => data[k]
  }

  /** Each byte of the shared receive buffer is that of the last input that reached it. */
  lemma {:induction false} LastWriterWins(s: Server, ins: seq<Input>, k: nat, n: nat)
    requires Sound(s) && Shapes(ins) && k < 1551 && n < |ins|
    requires Writes(ins[n], k) && forall m :: n < m < |ins| ==> !Writes(ins[m], k)
    ensures Serve(s, ins).buffer[k] == Written(ins[n], k)
    decreases |ins|
  {
    hide EventOf, Handle;
    if n < |ins| - 1 {
      LastWriterWins(s, ins[..|ins| - 1], k, n);
    }
  }

  lemma {:induction false} UnwrittenStays(s: Server, ins: seq<Input>, k: nat)
    requires Sound(s) && Shapes(ins) && k < 1551
    requires forall m :: 0 <= m < |ins| ==> !Writes(ins[m], k)
    ensures Serve(s, ins).buffer[k] == s.buffer[k]
  {
    hide EventOf, Handle;
    if ins != [] {
      UnwrittenStays(s, ins[..|ins| - 1], k);
    }
  }

  /** A new connection raises the flag, a message of any client lowers it. */
  predicate SetsFlag(i: Input) {
    i.Connection? || (i.Received? && i.data != [])
  }

  /** The flag is up exactly if the last input of these was a connection. */
  lemma {:induction false} FlagIsLastWord(s: Server, ins: seq<Input>, n: nat)
    requires Sound(s) && Shapes(ins) && n < |ins|
    requires SetsFlag(ins[n]) && forall m :: n < m < |ins| ==> !SetsFlag(ins[m])
    ensures Serve(s, ins).receiveID == ins[n].Connection?
    decreases |ins|
  {
    hide EventOf, Handle;
    if n < |ins| - 1 {
      FlagIsLastWord(s, ins[..|ins| - 1], n);
    }
  }

  lemma {:induction false} FlagStays(s: Server, ins: seq<Input>)
    requires Sound(s) && Shapes(ins) && forall m :: 0 <= m < |ins| ==> !SetsFlag(ins[m])
    ensures Serve(s, ins).receiveID == s.receiveID
  {
    hide EventOf, Handle;
    if ins != [] {
      FlagStays(s, ins[..|ins| - 1]);
    }
  }
}
