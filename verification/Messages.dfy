/** What publishers put in a datagram and what subscribers read out of the frame made of it. */
module Messages {
  import opened Bytes
  import opened Options
  import opened Broker
  import opened Wire
  import opened Numbers
  import opened Single
  import opened SingleFacts

  // ---- publisher ----

  /** The four payloads: sign, magnitude and exponent as they stand on the wire. */
  datatype Content =
    | IntMsg(sign: byte, n: nat)
    | ShortRealMsg(p: nat)
    | FloatMsg(sign: byte, n: nat, point: byte)
    | StringMsg(s: seq<byte>)

  predicate WellFormed(c: Content) {
    match c
    case IntMsg(sign, n) => n < 0x8000_0000
    case ShortRealMsg(p) => p < U16
    case FloatMsg(sign, n, point) => n < U32
    case StringMsg(s) => |s| <= CONTENT_LEN && 0 !in s
  }

  function TypeOf(c: Content): byte {
    match c
    case IntMsg(_, _) => 0
    case ShortRealMsg(_) => 1
    case FloatMsg(_, _, _) => 2
    case StringMsg(_) => 3
  }

  function Payload(c: Content): (r: seq<byte>)
    requires WellFormed(c)
    ensures |r| <= CONTENT_LEN
  {
    match c
    case IntMsg(sign, n) => [sign] + Be32(n)
    case ShortRealMsg(p) => Be16(p)
    case FloatMsg(sign, n, point) => [sign] + Be32(n) + [point]
    case StringMsg(s) => s
  }

  predicate Topic(t: seq<byte>) {
    |t| <= TOPIC_LEN && 0 !in t
  }

  function Datagram(topic: seq<byte>, c: Content): (r: seq<byte>)
    requires Topic(topic) && WellFormed(c)
    ensures TOPIC_LEN < |r| <= BUFFER_SERVER_LEN
  {
    Field(topic, TOPIC_LEN) + [TypeOf(c)] + Payload(c)
  }

  // ---- subscriber ----

  /** A value as the subscriber prints it; Short counts hundredths. */
  datatype Value = Int(v: int) | Short(hundredths: int) | Float(f: real) | Text(s: seq<byte>)

  datatype Output = Line(ip: seq<byte>, port: nat, topic: seq<byte>, value: Value) | InvalidMessage

  /** The per-type decoders, on the 1500 content bytes. */
  function DecodeValue(kind: byte, data: seq<byte>): Option<Value>
    requires |data| == CONTENT_LEN
  {
    match kind
    case 0 => Some(Int(IntValue(FromBe32(data[1..5]), data[0])))
    case 1 => Some(Short(Hundredths(ShortReal(FromBe16(data[..2])))))
    case 2 => Some(Float(Signed(Quotient10(FromBe32(data[1..5]), data[5]), data[0])))
    case 3 => Some(Text(CStr(data)))
    case _ => None
  }

  function Printed(ip: seq<byte>, port: nat, topic: seq<byte>, v: Option<Value>): Output {
    match v
    case Some(value) => Line(ip, port, topic, value)
    case None => InvalidMessage
  }

  const IP_AT := 1551  // CONTENT_LEN + TOPIC_LEN + TYPE_LEN
  const PORT_AT := 1567  // IP_AT + IP_CHAR_LEN

  /** processMessage: the printed line for the 1570 bytes in the buffer. */
  function Decode(buf: seq<byte>): Output
    requires |buf| == BUFFER_CLIENT_LEN
  {
    Printed(CStr(buf[IP_AT..PORT_AT]), FromBe16(buf[PORT_AT..PORT_AT + 2]), CStr(buf[..TOPIC_LEN]),
            DecodeValue(buf[TOPIC_LEN], buf[TOPIC_LEN + 1..IP_AT]))
  }

  /** processMessage, with the division loop of a FLOAT run as it is written. */
  method ProcessMessage(sendBuffer: array<byte>) returns (out: Output)
    requires sendBuffer.Length == BUFFER_CLIENT_LEN
    ensures out == Decode(sendBuffer[..])
  {
    var buf := sendBuffer[..];
    var data := buf[TOPIC_LEN + 1..IP_AT];
    var value;
    if buf[TOPIC_LEN] == 2 {
      var res := ConvertNumber(data[1..5], data[5], data[0]);
      value := Some(Float(res));
    } else {
      value := DecodeValue(buf[TOPIC_LEN], data);
    }
    out := Printed(CStr(buf[IP_AT..PORT_AT]), FromBe16(buf[PORT_AT..PORT_AT + 2]), CStr(buf[..TOPIC_LEN]), value);
  }

  // ---- round trip ----

  /** How far from n/10^k a printed FLOAT may be. */
  function Tolerance(n: nat, k: nat): real {
    Decimal(n, k) * (Growth(k) - 1.0) + if k <= 37 then 0.0 else 2.0 * ETA
  }

  /** `v` is the published value: exactly, or for FLOAT within the tolerance. */
  predicate Conveys(v: Value, c: Content)
    requires WellFormed(c)
  {
    match c
    case IntMsg(sign, n) => v == Int(if sign == 1 then -1 * n else n)
    case ShortRealMsg(p) => v == Short(p)
    case FloatMsg(sign, n, point) =>
      v.Float? && Dist(v.f, if sign == 1 then -Decimal(n, point) else Decimal(n, point)) <= Tolerance(n, point)
    case StringMsg(s) => v == Text(s)
  }

  lemma SameSideDist(p: real, x: real, sign: byte)
    ensures Dist(Signed(p, sign), if sign == 1 then -x else x) == Dist(p, x)
  {
  }

  lemma FloatConveys(sign: byte, n: nat, point: byte)
    requires n < U32
    ensures Conveys(Float(Signed(Quotient10(n, point), sign)), FloatMsg(sign, n, point))
  {
    hide Quotient10, Decimal, Growth, Dist, Signed;
    FloatError(n, point);
    if point <= 37 {
      FloatIsAccurate(n, point);
    }
    SameSideDist(Quotient10(n, point), Decimal(n, point), sign);
  }

  /** The frame the server makes of a publication. */
  function Published(topic: seq<byte>, c: Content, ip: seq<byte>, port: nat): Frame
    requires Topic(topic) && WellFormed(c) && Dotted(ip) && port < U16
  {
    FrameOf(Field(Datagram(topic, c), BUFFER_SERVER_LEN), ip, port)
  }

  lemma {:induction false} ValueArrives(c: Content, data: seq<byte>)
    requires WellFormed(c) && data == Field(Payload(c), CONTENT_LEN)
    ensures var v := DecodeValue(TypeOf(c), data); v.Some? && Conveys(v.value, c)
  {
    hide Quotient10, Decimal, Growth, ShortReal, Hundredths, IntValue, Signed, Tolerance, Dist;
    match c
    case IntMsg(sign, n) =>
      assert data[1..5] == Be32(n);
      Be32RoundTrip(n);
      IntIsExactIff(n, sign);
    case ShortRealMsg(p) =>
      assert data[..2] == Be16(p);
      Be16RoundTrip(p);
      ShortRealPrintsExactly(p);
    case FloatMsg(sign, n, point) =>
      assert data[1..5] == Be32(n);
      Be32RoundTrip(n);
      assert data[0] == sign && data[5] == point;
      FloatConveys(sign, n, point);
    case StringMsg(s) =>
      FieldReadsBack(s, CONTENT_LEN);
  }

  lemma FrameLayout(buffer: seq<byte>, ip: seq<byte>, port: nat, f: Frame)
    requires |buffer| == BUFFER_SERVER_LEN && Dotted(ip) && port < U16 && f == FrameOf(buffer, ip, port)
    ensures f[..IP_AT] == buffer
    ensures CStr(f[IP_AT..PORT_AT]) == ip
    ensures FromBe16(f[PORT_AT..PORT_AT + 2]) == port
    ensures f[FRAME_LEN - 1] == CR
  {
    assert f[IP_AT..PORT_AT] == Field(ip, IP_CHAR_LEN);
    FieldReadsBack(ip, IP_CHAR_LEN);
    assert f[PORT_AT..PORT_AT + 2] == Be16(port);
    Be16RoundTrip(port);
  }

  lemma DatagramLayout(topic: seq<byte>, c: Content, buffer: seq<byte>)
    requires Topic(topic) && WellFormed(c) && buffer == Field(Datagram(topic, c), BUFFER_SERVER_LEN)
    ensures CStr(buffer[..TOPIC_LEN]) == topic
    ensures buffer[TOPIC_LEN] == TypeOf(c)
    ensures buffer[TOPIC_LEN + 1..] == Field(Payload(c), CONTENT_LEN)
  {
    hide Payload, CStr;
    assert buffer[..TOPIC_LEN] == Field(topic, TOPIC_LEN);
    FieldReadsBack(topic, TOPIC_LEN);
  }

  datatype Publication = Publication(topic: seq<byte>, content: Content, ip: seq<byte>, port: nat)

  predicate WellSent(p: Publication) {
    Topic(p.topic) && WellFormed(p.content) && Dotted(p.ip) && p.port < U16
  }

  /** The printed line shows the publication: its sender, topic and value. */
  predicate Shows(out: Output, p: Publication)
    requires WellSent(p)
  {
    out.Line? && out.ip == p.ip && out.port == p.port && out.topic == p.topic && Conveys(out.value, p.content)
  }

  /** Publisher, server and subscriber agree on every offset: sender, topic and value all arrive. */
  lemma {:induction false} PublicationRoundTrip(p: Publication)
    requires WellSent(p)
    ensures Shows(Decode(Published(p.topic, p.content, p.ip, p.port)), p)
  {
    hide Conveys, DecodeValue, Datagram, Payload, FrameOf;
    var f := Published(p.topic, p.content, p.ip, p.port);
    var buffer := Field(Datagram(p.topic, p.content), BUFFER_SERVER_LEN);
    FrameLayout(buffer, p.ip, p.port, f);
    DatagramLayout(p.topic, p.content, buffer);
    assert f[..TOPIC_LEN] == buffer[..TOPIC_LEN];
    assert f[TOPIC_LEN + 1..IP_AT] == buffer[TOPIC_LEN + 1..];
    assert f[TOPIC_LEN] == buffer[TOPIC_LEN];
    ValueArrives(p.content, buffer[TOPIC_LEN + 1..]);
  }

  // ---- every frame, byte by byte ----

  /** INT: sign and magnitude; from 2^31 on the magnitude has become negative. */
  ghost predicate ReadsInt(v: Value, sign: byte, n: nat) {
    && v.Int?
    && (n < 0x8000_0000 ==> v.v == if sign == 1 then -1 * n else n)
    && (n >= 0x8000_0000 && !(sign == 1 && n == 0x8000_0000) ==>
          v.v == if sign == 1 then 0x1_0000_0000 - n else n - 0x1_0000_0000)
  }

  /** FLOAT: sign, magnitude and the number of decimals. */
  ghost predicate ReadsFloat(v: Value, sign: byte, n: nat, k: nat) {
    v.Float? && Dist(v.f, if sign == 1 then -Decimal(n, k) else Decimal(n, k)) <= Tolerance(n, k)
  }

  /**
   What is printed for any 1570 bytes: byte 50 is the type, above 3 the message is invalid; topic,
   value, address and port stand at their places.
   */
  lemma {:induction false} EveryFrameIsRead(f: seq<byte>)
    requires |f| == 1570
    ensures Decode(f) == InvalidMessage <==> f[50] > 3
    ensures f[50] <= 3 ==>
              && IsString(Decode(f).topic, f, 0, 50) && IsString(Decode(f).ip, f, 1551, 16)
              && Decode(f).port == Base256(0, 0, f[1567], f[1568])
    ensures f[50] == 0 ==> ReadsInt(Decode(f).value, f[51], Base256(f[52], f[53], f[54], f[55]))
    ensures f[50] == 1 ==> Decode(f).value == Short(Base256(0, 0, f[51], f[52]))
    ensures f[50] == 2 ==> ReadsFloat(Decode(f).value, f[51], Base256(f[52], f[53], f[54], f[55]), f[56])
    ensures f[50] == 3 ==> Decode(f).value.Text? && IsString(Decode(f).value.s, f, 51, 1500)
  {
    hide Quotient10, Decimal, Growth, ShortReal, Hundredths, IntValue, Tolerance, Dist, Base256, FromBe32, FromBe16;
    var data := f[51..1551];
    PartOfPart(f, 51, 1551, 1, 5);
    PartOfPart(f, 51, 1551, 0, 2);
    assert data[5] == f[56];
    CStrIsString(f, 0, 50);
    CStrIsString(f, 1551, 16);
    CStrIsString(f, 51, 1500);
    assert f[..50] == f[0..50];
    TwoDigits(f, 1567);
    if f[50] == 0 {
      Digits(f[52..56]);
      IntIsRead(FromBe32(f[52..56]), f[51]);
    } else if f[50] == 1 {
      TwoDigits(f, 51);
      ShortRealPrintsExactly(FromBe16(f[51..53]));
    } else if f[50] == 2 {
      Digits(f[52..56]);
      FloatConveys(f[51], FromBe32(f[52..56]), f[56]);
    }
  }

  lemma PartOfPart(f: seq<byte>, a: nat, b: nat, c: nat, d: nat)
    requires a <= b <= |f| && c <= d <= b - a
    ensures f[a..b][c..d] == f[a + c..a + d]
  {
    var x, y := f[a..b][c..d], f[a + c..a + d];
    forall i | 0 <= i < |y| ensures x[i] == y[i] {
      assert x[i] == f[a..b][c + i];
    }
  }

  lemma TwoDigits(f: seq<byte>, at: nat)
    requires at + 2 <= |f|
    ensures FromBe16(f[at..at + 2]) == Base256(0, 0, f[at], f[at + 1])
  {
    ShortOrder(f[at..at + 2]);
  }

  lemma Digits(b: seq<byte>)
    requires |b| == 4
    ensures FromBe32(b) == Base256(b[0], b[1], b[2], b[3])
  {
    NetworkOrder(b, 0);
  }

  lemma IntIsRead(n: nat, sign: byte)
    requires n < U32
    ensures ReadsInt(Int(IntValue(n, sign)), sign, n)
  {
    WrappedNegation(AsInt(n));
  }
}
