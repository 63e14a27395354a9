/** From publisher to printed line: the whole system over a run of the server. */
module EndToEnd {
  import opened Bytes
  import opened Options
  import opened Subscriptions
  import opened Broker
  import opened History
  import opened Wire
  import opened Messages
  import opened Subscriber
  import opened Dispatch
  import opened Rounds
  import opened Handshake
  import opened Conversation
  import opened Sockets

  /** Store and forward on every run of select rounds, whatever their inputs and interleaving. */
  lemma {:induction false} RoundsSettle(s: Server, rs: seq<Round>, k: seq<byte>)
    requires Sound(s) && s.reg.clients == [] && AllSupplied(rs)
    ensures var es := Calls(s, Scripts(s, rs));
            match Lookup(AfterRounds(s, rs).reg.clients, k)
            case None => Expected(k, es) == []
            case Some(c) => Settled(k, c, LifeOf(k, es), Expected(k, es))
  {
    RoundsAreOneRun(s, rs);
    ServeIsRun(s, Scripts(s, rs));
    BrokerSettles(s.reg, k, Calls(s, Scripts(s, rs)));
  }

  // ---- what a client should get to read ----

  /** The line is that of the datagram, and shows the publication the datagram was made for, if any. */
  ghost predicate Reads(line: Output, i: Input)
    requires Shape(i)
  {
    && i.Arrived?
    && line == Decode(FrameOf(Field(i.data, BUFFER_SERVER_LEN), i.ip, i.port))
    && forall p :: WellSent(p) && i == InputFor(Publishes(p)) ==> Shows(line, p)
  }

  ghost predicate FrameReads(f: Frame, i: Input) {
    Shape(i) && Framed(f) && Reads(Decode(f), i)
  }

  /** Frame by frame, `frames` are server frames that read as the datagrams `told`. */
  ghost predicate ReadAs(frames: seq<Frame>, told: seq<Input>) {
    |frames| == |told| && forall n :: 0 <= n < |frames| ==> FrameReads(frames[n], told[n])
  }

  /** Line by line, what is printed reads as the datagrams `told`. */
  ghost predicate PrintsAs(lines: seq<Output>, told: seq<Input>) {
    |lines| == |told| && forall n :: 0 <= n < |lines| ==> Shape(told[n]) && Reads(lines[n], told[n])
  }

  lemma {:induction false} CallAt(s: Server, ins: seq<Input>, n: nat)
    requires Sound(s) && Shapes(ins) && n < |ins|
    ensures Calls(s, ins)[n] == EventOf(Serve(s, ins[..n]), ins[n])
    decreases |ins|
  {
    hide EventOf, Serve;
    if n < |ins| - 1 {
      CallAt(s, ins[..|ins| - 1], n);
      assert ins[..|ins| - 1][..n] == ins[..n];
    }
  }

  lemma {:induction false} CallsOfPart(s: Server, ins: seq<Input>, j: nat)
    requires Sound(s) && Shapes(ins) && j <= |ins|
    ensures Calls(s, ins[..j]) == Calls(s, ins)[..j]
    decreases |ins|
  {
    hide EventOf, Serve;
    if j == |ins| {
      assert ins[..j] == ins;
    } else {
      CallsOfPart(s, ins[..|ins| - 1], j);
      assert ins[..|ins| - 1][..j] == ins[..j];
    }
  }

  /** Any datagram, well-formed or not, becomes a frame that reads as it. */
  lemma {:induction false} DatagramIsRead(t: Server, i: Input)
    requires Sound(t) && Shape(i) && EventOf(t, i).Publish?
    ensures FrameReads(EventOf(t, i).frame, i)
  {
    hide Decode, Shows, Datagram, Field, CStr, WellSent, FromBe16;
    var f := EventOf(t, i).frame;
    FrameLayout(BufferAfter(t, i), i.ip, i.port, f);
    forall p | WellSent(p) && i == InputFor(Publishes(p)) ensures Shows(Decode(f), p) {
      PublicationIsPublished(t, p);
    }
  }

  lemma {:induction false} TogetherIsRead(s: Server, ins: seq<Input>, f: Frame, i: Input)
    requires Sound(s) && Shapes(ins) && Together(Calls(s, ins), FramesIn(Calls(s, ins)), ins, f, i)
    ensures FrameReads(f, i)
  {
    hide FrameReads, EventOf, Serve, Shape;
    var es := Calls(s, ins);
    var n :| 0 <= n < |es| && es[n].Publish? && FramesIn(es)[n] == f && ins[n] == i;
    CallAt(s, ins, n);
    DatagramIsRead(Serve(s, ins[..n]), ins[n]);
  }

  /** Frame by frame, what the history owes a client reads as the datagrams it is owed. */
  lemma {:induction false} OwedIsReported(k: seq<byte>, s: Server, ins: seq<Input>)
    requires Sound(s) && Shapes(ins)
    ensures var es := Calls(s, ins); ReadAs(Expected(k, es), Owed(k, es, ins))
  {
    hide FrameReads, Together, Shape, Owed, Calls;
    var es := Calls(s, ins);
    OwedTogether(k, es, FramesIn(es), ins);
    forall m | 0 <= m < |Expected(k, es)| ensures FrameReads(Expected(k, es)[m], Owed(k, es, ins)[m]) {
      TogetherIsRead(s, ins, Expected(k, es)[m], Owed(k, es, ins)[m]);
    }
  }

  /** On every run, the frames sent to a client and those stored for it read as what it is owed. */
  lemma {:induction false} PrintedAndStoredIsPublished(s: Server, ins: seq<Input>, k: seq<byte>)
    requires Sound(s) && s.reg.clients == [] && Shapes(ins)
    ensures match Lookup(Serve(s, ins).reg.clients, k)
            case None => Owed(k, Calls(s, ins), ins) == []
            case Some(c) =>
              && ReadAs(Frames(c.sent) + c.waiting, Owed(k, Calls(s, ins), ins))
              && (c.sock != OFFLINE ==> c.waiting == [])
  {
    hide FrameReads, Shapes, EventOf;
    ServeIsRun(s, ins);
    BrokerSettles(s.reg, k, Calls(s, ins));
    OwedIsReported(k, s, ins);
  }

  // ---- one session of a subscriber ----

  /**
   On every run, the frames a record is sent in one session go out on its socket and read as what was
   published for its ID since it was last online before.
   */
  lemma {:induction false} SessionReadsAsReports(s: Server, ins: seq<Input>, k: seq<byte>)
    requires Sound(s) && s.reg.clients == [] && Shapes(ins) && Online(LifeOf(k, Calls(s, ins)))
    ensures var es := Calls(s, ins);
            var session := SessionSends(k, es);
            && Lookup(Serve(s, ins).reg.clients, k) == Solo(k, es)
            && (forall n :: 0 <= n < |session| ==> session[n].sock == LifeOf(k, es).sock)
            && ReadAs(Frames(session), OwedSince(k, es, ins, CaughtUp(k, es)))
  {
    hide FrameReads, SessionSends, LifeOf, CaughtUp, OwedSince;
    var es := Calls(s, ins);
    ServeIsRun(s, ins);
    RunIsSolo(s.reg, k, es);
    SessionIsOwed(k, es);
    OwedSinceIsRead(s, ins, k, CaughtUp(k, es));
  }

  lemma {:induction false} OwedSinceIsRead(s: Server, ins: seq<Input>, k: seq<byte>, j: nat)
    requires Sound(s) && Shapes(ins) && j <= |ins|
    ensures var es := Calls(s, ins); ReadAs(OwedSince(k, es, FramesIn(es), j), OwedSince(k, es, ins, j))
  {
    hide FrameReads, Together, Shape, OwedSince, Calls;
    var es := Calls(s, ins);
    OwedSinceTogether(k, es, FramesIn(es), ins, j);
    var frames, told := OwedSince(k, es, FramesIn(es), j), OwedSince(k, es, ins, j);
    forall m | 0 <= m < |frames| ensures FrameReads(frames[m], told[m]) {
      TogetherIsRead(s, ins, frames[m], told[m]);
    }
  }

  lemma FramesPrint(frames: seq<Frame>, told: seq<Input>)
    requires ReadAs(frames, told)
    ensures Chunks(frames) && PrintsAs(DecodeAll(Handed(frames, Zeros(BUFFER_CLIENT_LEN))), told)
  {
    hide Decode, Reads, Shape;
    AlignedFramesArrive(frames);
  }

  /**
   End to end: on every run that reads no ID from a client's own socket, a subscriber whose recv calls
   return one by one the frames its socket has carried since it was accepted prints exactly what was
   published for its ID since it was last online, the stored publications and then the live ones, in
   order and in number.
   */
  lemma {:induction false} PrintedIsPublished(s: Server, ins: seq<Input>, k: seq<byte>)
    requires Consistent(s) && s.reg.clients == [] && Shapes(ins)
    requires PossibleRun(s, ins) && NeverHijacked(s, ins)
    requires Online(LifeOf(k, Calls(s, ins)))
    ensures var es := Calls(s, ins);
            var chunks := Wired(s, ins, LifeOf(k, es).sock);
            && Chunks(chunks)
            && PrintsAs(DecodeAll(Handed(chunks, Zeros(BUFFER_CLIENT_LEN))), OwedSince(k, es, ins, CaughtUp(k, es)))
  {
    SocketsAreSessions(s, ins);
    hide Calls, Wired, SessionSends, OwedSince, CaughtUp, ReadAs, PrintsAs, Online, Serve, LifeOf, Consistent, Shapes;
    hide PossibleRun, NeverHijacked;
    assert CarriesSession(s, ins, k);
    SessionReadsAsReports(s, ins, k);
    var es := Calls(s, ins);
    FramesPrint(Wired(s, ins, LifeOf(k, es).sock), OwedSince(k, es, ins, CaughtUp(k, es)));
  }

  // ---- the same in terms of what the clients do ----

  /** Line by line, what is printed shows the publications `told`. */
  ghost predicate PrintsPublications(lines: seq<Output>, told: seq<Act>) {
    && |lines| == |told|
    && forall n :: 0 <= n < |lines| ==> told[n].Publishes? && WellSent(told[n].p) && Shows(lines[n], told[n].p)
  }

  /**
   End to end, on every possible conversation in which messages come in turn and no connection sends a
   second ID: what a subscriber prints is fixed by the connections, commands and publications
   themselves, without a look at what the server made of them.
   */
  lemma {:induction false} ConversationIsPrinted(s: Server, acts: seq<Act>, k: seq<byte>)
    requires Fresh(s) && Consistent(s) && AllLegal(acts) && PossibleRun(s, InputsFor(acts))
    requires AllInTurn(acts) && OneIdEach(acts) && Online(LifeOf(k, Meant(acts)))
    ensures var es := Meant(acts);
            var chunks := Wired(s, InputsFor(acts), LifeOf(k, es).sock);
            && Chunks(chunks)
            && PrintsPublications(DecodeAll(Handed(chunks, Zeros(BUFFER_CLIENT_LEN))),
                                  OwedSince(k, es, acts, CaughtUp(k, es)))
  {
    var es, ins := Meant(acts), InputsFor(acts);
    UnderstoodIffInTurn(s, acts);
    NeverHijackedIffOneIdEach(s, acts);
    hide Fresh, Consistent, AllInTurn, OneIdEach, PossibleRun, NeverHijacked, Online, LifeOf, Wired, Calls, Shapes;
    hide OwedSince, CaughtUp, PrintsAs, PrintsPublications, Handed, DecodeAll, Chunks, AllLegal, Meant, InputsFor;
    PrintedIsPublished(s, ins, k);
    var chunks := Wired(s, ins, LifeOf(k, es).sock);
    ActsArePrinted(acts, k, CaughtUp(k, es), DecodeAll(Handed(chunks, Zeros(BUFFER_CLIENT_LEN))));
  }

  /** Lines that read as the datagrams owed show the publications owed. */
  lemma {:induction false} ActsArePrinted(acts: seq<Act>, k: seq<byte>, j: nat, lines: seq<Output>)
    requires AllLegal(acts) && j <= |acts| && PrintsAs(lines, OwedSince(k, Meant(acts), InputsFor(acts), j))
    ensures PrintsPublications(lines, OwedSince(k, Meant(acts), acts, j))
  {
    hide OwedSince, Together, Reads, Shows, WellSent, Shape, Meant, InputsFor, AllLegal;
    var told, news := OwedSince(k, Meant(acts), acts, j), OwedSince(k, Meant(acts), InputsFor(acts), j);
    OwedSinceTogether(k, Meant(acts), acts, InputsFor(acts), j);
    forall n | 0 <= n < |told|
      ensures told[n].Publishes? && WellSent(told[n].p) && Shows(lines[n], told[n].p)
    {
      PublishedAct(acts, told[n], news[n], lines[n]);
    }
  }

  lemma PublishedAct(acts: seq<Act>, a: Act, i: Input, line: Output)
    requires AllLegal(acts) && Together(Meant(acts), acts, InputsFor(acts), a, i) && Shape(i) && Reads(line, i)
    ensures a.Publishes? && WellSent(a.p) && Shows(line, a.p)
  {
    hide Decode, Shows, WellFormed, Topic, Published;
    var n :| 0 <= n < |acts| && Meant(acts)[n].Publish? && acts[n] == a && InputsFor(acts)[n] == i;
    assert Legal(acts[n]) && MeaningOf(acts[n]).Publish?;
  }
}
