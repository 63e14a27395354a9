/** Byte layouts on both sides of the socket: published frames and client requests. */
module Wire {
  import opened Bytes
  import opened Broker

  const ID_LEN := 10
  const TOPIC_LEN := 50
  const CONTENT_LEN := 1500
  const BUFFER_SERVER_LEN := 1551
  const BUFFER_CLIENT_LEN := 1570
  const IP_CHAR_LEN := 16
  const FRAME_LEN := 1570  // BUFFER_SERVER_LEN + IP_CHAR_LEN + 2 * NULL_LEN + TYPE_LEN
  const SUBSCRIBE_LEN := 57
  const UNSUBSCRIBE_LEN := 51
  const CR: byte := 13  // '\r'
  const LETTER_S: byte := 115  // 's'
  const LETTER_U: byte := 117  // 'u'
  const NEWLINE: byte := 10

  /** The sender's dotted address, as inet_ntoa writes it. */
  predicate Dotted(ip: seq<byte>) {
    |ip| < IP_CHAR_LEN && 0 !in ip
  }

  // ---- the frame sent to subscribers ----

  /** Datagram, address, port and separator, field after field. */
  function FrameOf(buffer: seq<byte>, ip: seq<byte>, port: nat): (r: Frame)
    requires |buffer| == BUFFER_SERVER_LEN && Dotted(ip) && port < U16
    ensures |r| == FRAME_LEN
  {
    buffer + (ip + Zeros(IP_CHAR_LEN - |ip|)) + Be16(port) + [CR]
  }

  /** format_buffer: fills the caller's `format` at fixed offsets. */
  method FormatBuffer(format: array<byte>, buffer: array<byte>, ip: seq<byte>, port: nat)
    requires format.Length == FRAME_LEN && buffer.Length == BUFFER_SERVER_LEN && format != buffer
    requires Dotted(ip) && port < U16
    modifies format
    ensures format[..] == FrameOf(buffer[..], ip, port)
  {
    Clear(format, BUFFER_SERVER_LEN + IP_CHAR_LEN + 2);
    Memcpy(format, 0, buffer[..]);
    Memcpy(format, BUFFER_SERVER_LEN, ip);
    Memcpy(format, BUFFER_SERVER_LEN + IP_CHAR_LEN, Be16(port));
    Memcpy(format, BUFFER_SERVER_LEN + IP_CHAR_LEN + 2, [CR]);
    FormatSteps(old(format[..]), buffer[..], ip, port);
  }

  /** The four copies into the cleared buffer, one after the other. */
  lemma FormatSteps(was: seq<byte>, buffer: seq<byte>, ip: seq<byte>, port: nat)
    requires |was| == FRAME_LEN && |buffer| == BUFFER_SERVER_LEN && Dotted(ip) && port < U16
    ensures var s0 := Zeros(BUFFER_SERVER_LEN + IP_CHAR_LEN + 2) + was[BUFFER_SERVER_LEN + IP_CHAR_LEN + 2..];
            var s1 := Splice(s0, 0, buffer);
            var s2 := Splice(s1, BUFFER_SERVER_LEN, ip);
            var s3 := Splice(s2, BUFFER_SERVER_LEN + IP_CHAR_LEN, Be16(port));
            Splice(s3, BUFFER_SERVER_LEN + IP_CHAR_LEN + 2, [CR]) == FrameOf(buffer, ip, port)
  {
    hide Splice, Zeros, Be16;
    var last := was[BUFFER_SERVER_LEN + IP_CHAR_LEN + 2..];
    var pad := Zeros(IP_CHAR_LEN - |ip|);
    var s0 := Zeros(BUFFER_SERVER_LEN + IP_CHAR_LEN + 2) + last;
    ZerosSplit(BUFFER_SERVER_LEN, IP_CHAR_LEN + 2);
    ZerosSplit(|ip|, IP_CHAR_LEN - |ip| + 2);
    ZerosSplit(IP_CHAR_LEN - |ip|, 2);
    var tail := Zeros(|ip|) + (pad + Zeros(2) + last);
    assert s0 == [] + Zeros(BUFFER_SERVER_LEN) + tail;
    SpliceMiddle([], Zeros(BUFFER_SERVER_LEN), tail, buffer);
    var s1 := Splice(s0, 0, buffer);
    assert s1 == buffer + Zeros(|ip|) + (pad + Zeros(2) + last);
    SpliceMiddle(buffer, Zeros(|ip|), pad + Zeros(2) + last, ip);
    var s2 := Splice(s1, BUFFER_SERVER_LEN, ip);
    assert s2 == (buffer + (ip + pad)) + Zeros(2) + last;
    SpliceMiddle(buffer + (ip + pad), Zeros(2), last, Be16(port));
    var s3 := Splice(s2, BUFFER_SERVER_LEN + IP_CHAR_LEN, Be16(port));
    assert s3 == (buffer + (ip + pad) + Be16(port)) + last + [];
    SpliceMiddle(buffer + (ip + pad) + Be16(port), last, [], [CR]);
  }

  /** The frame byte by byte: datagram, dotted address padded with NULs, port most significant byte first, 13. */
  lemma FrameBytes(buffer: seq<byte>, ip: seq<byte>, port: nat)
    requires |buffer| == 1551 && Dotted(ip) && port < 65536
    ensures var f := FrameOf(buffer, ip, port);
            && |f| == 1570
            && (forall k :: 0 <= k < 1551 ==> f[k] == buffer[k])
            && (forall k :: 1551 <= k < 1567 ==> f[k] == if k < 1551 + |ip| then ip[k - 1551] else 0)
            && Base256(0, 0, f[1567], f[1568]) == port
            && f[1569] == 13
  {
    NetworkOrder([0, 0, 0, 0], port);
    hide Be16, FrameOf, Base256;
    FrameParts(buffer, ip, port, Field(ip, 16));
    FourParts(buffer, Field(ip, 16), Be16(port), [13]);
  }

  lemma FrameParts(buffer: seq<byte>, ip: seq<byte>, port: nat, address: seq<byte>)
    requires |buffer| == 1551 && Dotted(ip) && port < 65536 && address == Field(ip, 16)
    ensures FrameOf(buffer, ip, port) == buffer + address + Be16(port) + [13]
  {
    hide Be16;
  }

  lemma FourParts(a: seq<byte>, b: seq<byte>, c: seq<byte>, d: seq<byte>)
    requires |a| == 1551 && |b| == 16 && |c| == 2 && |d| == 1
    ensures var f := a + b + c + d;
            && |f| == 1570 && f[1567] == c[0] && f[1568] == c[1] && f[1569] == d[0]
            && (forall k :: 0 <= k < 1551 ==> f[k] == a[k])
            && (forall k :: 1551 <= k < 1567 ==> f[k] == b[k - 1551])
  {
  }

  // ---- client requests ----

  /** Command letter and topic copied into the cleared send buffer. */
  method BeginRequest(sendBuffer: array<byte>, letter: byte, topic: seq<byte>)
    requires sendBuffer.Length == BUFFER_CLIENT_LEN && 1 + |topic| <= BUFFER_CLIENT_LEN
    modifies sendBuffer
    ensures sendBuffer[..TOPIC_LEN + 2] == [letter] + Field(topic, TOPIC_LEN + 1)
  {
    Clear(sendBuffer, sendBuffer.Length);
    Memcpy(sendBuffer, 0, [letter]);
    Memcpy(sendBuffer, 1, topic);
    RequestSteps(letter, topic);
    assert old(sendBuffer[sendBuffer.Length..]) == [];
    assert sendBuffer[..TOPIC_LEN + 2] == sendBuffer[..][..TOPIC_LEN + 2];
  }

  lemma RequestSteps(letter: byte, topic: seq<byte>)
    requires 1 + |topic| <= BUFFER_CLIENT_LEN
    ensures Splice(Splice(Zeros(BUFFER_CLIENT_LEN) + [], 0, [letter]), 1, topic)[..TOPIC_LEN + 2]
            == [letter] + Field(topic, TOPIC_LEN + 1)
  {
    hide Splice, Zeros, Field;
    var rest := BUFFER_CLIENT_LEN - 1 - |topic|;
    ZerosSplit(1, BUFFER_CLIENT_LEN - 1);
    ZerosSplit(|topic|, rest);
    assert Zeros(BUFFER_CLIENT_LEN) + [] == [] + Zeros(1) + (Zeros(|topic|) + Zeros(rest));
    SpliceMiddle([], Zeros(1), Zeros(|topic|) + Zeros(rest), [letter]);
    var s1 := Splice(Zeros(BUFFER_CLIENT_LEN) + [], 0, [letter]);
    assert s1 == [letter] + Zeros(|topic|) + Zeros(rest);
    SpliceMiddle([letter], Zeros(|topic|), Zeros(rest), topic);
    FieldIsPrefix(topic, rest, TOPIC_LEN + 1);
    var padded := topic + Zeros(rest);
    assert [letter] + topic + Zeros(rest) == [letter] + padded;
    assert ([letter] + padded)[..TOPIC_LEN + 2] == [letter] + padded[..TOPIC_LEN + 1];
  }

  lemma FieldIsPrefix(s: seq<byte>, m: nat, n: nat)
    requires n <= |s| + m
    ensures (s + Zeros(m))[..n] == Field(s, n)
  {
  }

  /** client.c subscribe: builds the request in the send buffer and sends a prefix of it. */
  method EncodeSubscribe(sendBuffer: array<byte>, topic: seq<byte>, sf: int) returns (sent: seq<byte>)
    requires sendBuffer.Length == BUFFER_CLIENT_LEN && 1 + |topic| <= BUFFER_CLIENT_LEN
    requires -0x8000_0000 <= sf < 0x8000_0000
    modifies sendBuffer
    ensures sent == SubscribeRequest(topic, sf)
  {
    BeginRequest(sendBuffer, LETTER_S, topic);
    ghost var head := sendBuffer[..TOPIC_LEN + 2];
    Memcpy(sendBuffer, TOPIC_LEN + 2, HostInt(sf));
    assert sendBuffer[..TOPIC_LEN + 6] == head + HostInt(sf);
    Memcpy(sendBuffer, TOPIC_LEN + 6, [0]);
    sent := sendBuffer[..SUBSCRIBE_LEN];
    assert sent == head + HostInt(sf) + [0];
  }

  /** client.c unsubscribe. */
  method EncodeUnsubscribe(sendBuffer: array<byte>, topic: seq<byte>) returns (sent: seq<byte>)
    requires sendBuffer.Length == BUFFER_CLIENT_LEN && 1 + |topic| <= BUFFER_CLIENT_LEN
    modifies sendBuffer
    ensures sent == UnsubscribeRequest(topic)
  {
    BeginRequest(sendBuffer, LETTER_U, topic);
    ghost var head := sendBuffer[..TOPIC_LEN + 2];
    Memcpy(sendBuffer, TOPIC_LEN + 2, [0]);
    sent := sendBuffer[..UNSUBSCRIBE_LEN];
    assert sent == head[..UNSUBSCRIBE_LEN];
    assert forall k :: 0 <= k < TOPIC_LEN ==> Field(topic, TOPIC_LEN + 1)[k] == Field(topic, TOPIC_LEN)[k];
  }

  /** subscriber.c:47-52: the ID as strncpy left it in its ten-byte field, and a NUL behind. */
  method EncodeId(sendBuffer: array<byte>, id: seq<byte>) returns (sent: seq<byte>)
    requires sendBuffer.Length == BUFFER_CLIENT_LEN
    modifies sendBuffer
    ensures sent == IdMessage(id)
  {
    Clear(sendBuffer, sendBuffer.Length);
    Memcpy(sendBuffer, 0, Field(id, ID_LEN));
    Memcpy(sendBuffer, ID_LEN, [0]);
    sent := sendBuffer[..ID_LEN + 1];
    assert sent == IdMessage(id);
  }

  function IdMessage(id: seq<byte>): (r: seq<byte>)
    ensures |r| == ID_LEN + 1
  {
    Field(id, ID_LEN) + [0]
  }

  /** The server reads back the ID, whatever the buffer held, exactly up to the field's length. */
  lemma {:induction false} IdRoundTrip(id: seq<byte>, stale: seq<byte>)
    requires 0 !in id && |stale| == BUFFER_SERVER_LEN
    ensures CStr(Overlay(stale, IdMessage(id))) == id <==> |id| <= ID_LEN
  {
    var buf := Overlay(stale, IdMessage(id));
    if |id| <= ID_LEN {
      var rest := Zeros(ID_LEN - |id|) + stale[ID_LEN + 1..];
      assert Field(id, ID_LEN) + [0] == id + Zeros(ID_LEN - |id| + 1);
      assert buf == id + [0] + rest;
      TerminatedReadsBack(id, rest);
    } else {
      assert buf[ID_LEN] == 0 != id[ID_LEN];
    }
  }

  /** The first `n` bytes of a string field that is zero-padded and cut to size. */
  function Field(s: seq<byte>, n: nat): (r: seq<byte>)
    ensures |r| == n
    ensures forall k :: 0 <= k < n ==> r[k] == if k < |s| then s[k] else 0
  {
    if |s| < n then s + Zeros(n - |s|) else s[..n]
  }

  function SubscribeRequest(topic: seq<byte>, sf: int): (r: seq<byte>)
    requires -0x8000_0000 <= sf < 0x8000_0000
    ensures |r| == SUBSCRIBE_LEN
  {
    [LETTER_S] + Field(topic, TOPIC_LEN + 1) + HostInt(sf) + [0]
  }

  function UnsubscribeRequest(topic: seq<byte>): (r: seq<byte>)
    ensures |r| == UNSUBSCRIBE_LEN
  {
    [LETTER_U] + Field(topic, TOPIC_LEN)
  }

  /** A client's messages byte by byte: the ID, */
  lemma IdBytes(id: seq<byte>)
    ensures var m := IdMessage(id);
            |m| == 11 && m[10] == 0 && forall k :: 0 <= k < 10 ==> m[k] == if k < |id| then id[k] else 0
  {
  }

  /** and the two requests. */
  lemma RequestBytes(topic: seq<byte>, sf: int)
    requires -0x8000_0000 <= sf < 0x8000_0000
    ensures var m := SubscribeRequest(topic, sf);
            && |m| == 57 && m[0] == 115 && m[56] == 0
            && (forall k :: 1 <= k < 52 ==> m[k] == if k <= |topic| then topic[k - 1] else 0)
            && Base256(m[55], m[54], m[53], m[52]) == sf % 0x1_0000_0000
    ensures var m := UnsubscribeRequest(topic);
            |m| == 51 && m[0] == 117 && forall k :: 1 <= k < 51 ==> m[k] == if k <= |topic| then topic[k - 1] else 0
  {
    HostOrder([0, 0, 0, 0], sf);
    hide HostInt, Base256;
    var m, h, field := SubscribeRequest(topic, sf), HostInt(sf), Field(topic, TOPIC_LEN + 1);
    assert m == [LETTER_S] + field + h + [0];
    assert m[52] == h[0] && m[53] == h[1] && m[54] == h[2] && m[55] == h[3] && m[56] == 0;
    assert forall k :: 1 <= k < 52 ==> m[k] == field[k - 1];
  }

  /** handle_request: what the shared receive buffer asks for on descriptor `fd`. */
  function DecodeRequest(fd: int, buf: seq<byte>): Event
    requires |buf| == BUFFER_SERVER_LEN
  {
    var topic := CStr(buf[1..TOPIC_LEN + 2]);
    if buf[0] == LETTER_S then Subscribe(fd, topic, FromHostInt(buf[TOPIC_LEN + 2..TOPIC_LEN + 6]))
    else if buf[0] == LETTER_U then Unsubscribe(fd, topic)
    else Ignored
  }

  /** recv overwrites the front of the buffer and leaves the rest as it was. */
  function Overlay(buf: seq<byte>, data: seq<byte>): (r: seq<byte>)
    requires |data| <= |buf|
    ensures |r| == |buf|
  {
    data + buf[|data|..]
  }

  /** A subscription arrives whatever the buffer held before, exactly up to one byte over TOPIC_LEN. */
  lemma SubscribeRoundTrip(fd: int, topic: seq<byte>, sf: int, stale: seq<byte>)
    requires -0x8000_0000 <= sf < 0x8000_0000 && 0 !in topic
    requires |stale| == BUFFER_SERVER_LEN
    ensures DecodeRequest(fd, Overlay(stale, SubscribeRequest(topic, sf))) == Subscribe(fd, topic, sf)
            <==> |topic| <= TOPIC_LEN + 1
  {
    var buf := Overlay(stale, SubscribeRequest(topic, sf));
    assert buf[1..TOPIC_LEN + 2] == Field(topic, TOPIC_LEN + 1);
    assert buf[TOPIC_LEN + 2..TOPIC_LEN + 6] == HostInt(sf);
    HostIntRoundTrip(sf);
    if |topic| <= TOPIC_LEN + 1 {
      FieldReadsBack(topic, TOPIC_LEN + 1);
    }
  }

  lemma FieldReadsBack(s: seq<byte>, n: nat)
    requires |s| <= n && 0 !in s
    ensures CStr(Field(s, n)) == s
  {
    CStrReadsBack(s, Zeros(n - |s|));
    assert Field(s, n) == s + Zeros(n - |s|);
  }

  /**
   An unsubscription is one byte shorter than the topic field the server reads. It names its topic
   unless the topic is 50 bytes long and an earlier input of the same round left a byte there.
   */
  lemma UnsubscribeRoundTrip(fd: int, topic: seq<byte>, stale: seq<byte>)
    requires 0 !in topic && |topic| <= TOPIC_LEN
    requires |stale| == BUFFER_SERVER_LEN
    ensures DecodeRequest(fd, Overlay(stale, UnsubscribeRequest(topic))) == Unsubscribe(fd, topic)
            <==> |topic| < TOPIC_LEN || stale[UNSUBSCRIBE_LEN] == 0
  {
    var buf := Overlay(stale, UnsubscribeRequest(topic));
    var rest := Zeros(TOPIC_LEN - |topic|) + [stale[UNSUBSCRIBE_LEN]];
    assert buf[1..TOPIC_LEN + 2] == topic + rest;
    CStrReadsBack(topic, rest);
  }

  /**
   The console hands the client's unsubscribe the topic with the line's newline on it
   (client.c:56-65). Sent on, that names the topic only if it fills the whole field.
   */
  lemma TypedUnsubscribeNamesTopicIff(fd: int, topic: seq<byte>, stale: seq<byte>)
    requires 0 !in topic && NEWLINE !in topic && |topic| <= TOPIC_LEN
    requires |stale| == BUFFER_SERVER_LEN && stale[UNSUBSCRIBE_LEN] == 0
    ensures DecodeRequest(fd, Overlay(stale, UnsubscribeRequest(topic + [NEWLINE]))) == Unsubscribe(fd, topic)
            <==> |topic| == TOPIC_LEN
  {
    if |topic| == TOPIC_LEN {
      assert Field(topic + [NEWLINE], TOPIC_LEN) == Field(topic, TOPIC_LEN);
      UnsubscribeRoundTrip(fd, topic, stale);
    } else {
      UnsubscribeRoundTrip(fd, topic + [NEWLINE], stale);
      assert topic + [NEWLINE] != topic;
    }
  }
}
