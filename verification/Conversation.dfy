/**
 What publishers and subscribers do, in their own terms, and when the server understands it: the
 messages are those the client programs build, the meanings are the commands they stand for.
 */
module Conversation {
  import opened Bytes
  import opened Broker
  import opened Wire
  import opened Messages
  import opened Dispatch
  import opened Handshake

  datatype Act =
    | Wakes  // the server's select returns
    | Connects(fd: int)
    | Identifies(fd: int, id: seq<byte>)
    | Subscribes(fd: int, topic: seq<byte>, sf: int)
    | Unsubscribes(fd: int, topic: seq<byte>)
    | HangsUp(fd: int)
    | Publishes(p: Publication)

  /** IDs below ten bytes, topics up to fifty, flags of an int. */
  predicate Legal(a: Act) {
    match a
    case Wakes => true
    case Connects(fd) => fd >= 0
    case Identifies(fd, id) => fd >= 0 && 0 !in id && |id| < ID_LEN
    case Subscribes(fd, topic, sf) => fd >= 0 && Topic(topic) && -0x8000_0000 <= sf < 0x8000_0000
    case Unsubscribes(fd, topic) => fd >= 0 && Topic(topic)
    case HangsUp(fd) => fd >= 0
    case Publishes(p) => WellSent(p)
  }

  predicate AllLegal(acts: seq<Act>) {
    forall n :: 0 <= n < |acts| ==> Legal(acts[n])
  }

  /** What reaches the server when each message arrives whole and alone. */
  function InputFor(a: Act): (i: Input)
    requires Legal(a)
    ensures Shape(i)
  {
    match a
    case Wakes => Wake
    case Connects(fd) => Connection(fd)
    case Identifies(fd, id) => Received(fd, IdMessage(id))
    case Subscribes(fd, topic, sf) => Received(fd, SubscribeRequest(topic, sf))
    case Unsubscribes(fd, topic) => Received(fd, UnsubscribeRequest(topic))
    case HangsUp(fd) => Received(fd, [])
    case Publishes(p) => Arrived(Datagram(p.topic, p.content), p.ip, p.port)
  }

  /** What it should do there. */
  function MeaningOf(a: Act): Event
    requires Legal(a)
  {
    match a
    case Wakes => Ignored
    case Connects(fd) => Accept(fd)
    case Identifies(fd, id) => Identify(fd, id)
    case Subscribes(fd, topic, sf) => Subscribe(fd, topic, sf)
    case Unsubscribes(fd, topic) => Unsubscribe(fd, topic)
    case HangsUp(fd) => Disconnect(fd)
    case Publishes(p) => Publish(p.topic, Published(p.topic, p.content, p.ip, p.port))
  }

  function InputsFor(acts: seq<Act>): (ins: seq<Input>)
    requires AllLegal(acts)
    ensures Shapes(ins) && |ins| == |acts|
  {
    seq(|acts|, n requires 0 <= n < |acts| => InputFor(acts[n]))
  }

  function Meant(acts: seq<Act>): (es: seq<Event>)
    requires AllLegal(acts)
    ensures |es| == |acts|
  {
    seq(|acts|, n requires 0 <= n < |acts| => MeaningOf(acts[n]))
  }

  // ---- what the server carries from one input to the next ----

  /** The last connection accepted has not been followed by any message of a client yet. */
  function AwaitsId(acts: seq<Act>): bool {
    if acts == [] then false
    else
      match acts[|acts| - 1]
      case Connects(_) => true
      case Identifies(_, _) => false
      case Subscribes(_, _, _) => false
      case Unsubscribes(_, _) => false
      case _ => AwaitsId(acts[..|acts| - 1])
  }

  /** The byte that an unsubscription does not carry: set by datagrams, cleared by the rest. */
  function Carried(acts: seq<Act>): byte
    requires AllLegal(acts)
  {
    if acts == [] then 0
    else
      match acts[|acts| - 1]
      case Wakes => 0
      case Subscribes(_, _, _) => 0
      case Publishes(p) => if Payload(p.content) == [] then 0 else Payload(p.content)[0]
      case _ => Carried(acts[..|acts| - 1])
  }

  lemma {:induction false} ServerCarries(s: Server, acts: seq<Act>)
    requires Fresh(s) && AllLegal(acts)
    ensures Serve(s, InputsFor(acts)).receiveID == AwaitsId(acts)
    ensures Serve(s, InputsFor(acts)).buffer[UNSUBSCRIBE_LEN] == Carried(acts)
  {
    hide EventOf, Handle, Shape, Shapes, Payload, WellFormed, HostInt;
    if acts != [] {
      var before, a, ins := acts[..|acts| - 1], acts[|acts| - 1], InputsFor(acts);
      assert ins[..|ins| - 1] == InputsFor(before);
      ServerCarries(s, before);
      CarriedBytes(Serve(s, InputsFor(before)).buffer, a);
    }
  }

  /** Where that byte lies in each message. */
  lemma CarriedBytes(buffer: seq<byte>, a: Act)
    requires |buffer| == BUFFER_SERVER_LEN && Legal(a)
    ensures a.Subscribes? ==> Overlay(buffer, SubscribeRequest(a.topic, a.sf))[UNSUBSCRIBE_LEN] == 0
    ensures a.Unsubscribes? ==> Overlay(buffer, UnsubscribeRequest(a.topic))[UNSUBSCRIBE_LEN] == buffer[UNSUBSCRIBE_LEN]
    ensures a.Identifies? ==> Overlay(buffer, IdMessage(a.id))[UNSUBSCRIBE_LEN] == buffer[UNSUBSCRIBE_LEN]
    ensures Overlay(buffer, [])[UNSUBSCRIBE_LEN] == buffer[UNSUBSCRIBE_LEN]
    ensures a.Publishes? ==>
              Field(Datagram(a.p.topic, a.p.content), BUFFER_SERVER_LEN)[UNSUBSCRIBE_LEN] ==
              if Payload(a.p.content) == [] then 0 else Payload(a.p.content)[0]
  {
    hide Payload, HostInt;
    if a.Subscribes? {
      assert SubscribeRequest(a.topic, a.sf)[UNSUBSCRIBE_LEN] == Field(a.topic, TOPIC_LEN + 1)[TOPIC_LEN];
    }
  }

  // ---- when it is understood ----

  /**
   An ID is sent while the server awaits one, a request while it does not; and an unsubscription of
   a topic of full length finds the byte it does not carry clear.
   */
  predicate InTurn(before: seq<Act>, a: Act)
    requires AllLegal(before)
  {
    match a
    case Identifies(_, _) => AwaitsId(before)
    case Subscribes(_, _, _) => !AwaitsId(before)
    case Unsubscribes(_, topic) => !AwaitsId(before) && (|topic| < TOPIC_LEN || Carried(before) == 0)
    case _ => true
  }

  predicate AllInTurn(acts: seq<Act>)
    requires AllLegal(acts)
  {
    forall n :: 0 <= n < |acts| ==> InTurn(acts[..n], acts[n])
  }

  /** The server turns a publication's datagram into its frame, under its topic. */
  lemma {:induction false} PublicationIsPublished(s: Server, p: Publication)
    requires Sound(s) && WellSent(p)
    ensures var i := Arrived(Datagram(p.topic, p.content), p.ip, p.port);
            EventOf(s, i) == Publish(p.topic, Published(p.topic, p.content, p.ip, p.port))
    ensures var f := Published(p.topic, p.content, p.ip, p.port);
            f[FRAME_LEN - 1] == CR && Shows(Decode(f), p)
  {
    hide Shows, Decode, FrameOf, Datagram;
    var buffer := Field(Datagram(p.topic, p.content), BUFFER_SERVER_LEN);
    DatagramLayout(p.topic, p.content, buffer);
    FrameLayout(buffer, p.ip, p.port, FrameOf(buffer, p.ip, p.port));
    PublicationRoundTrip(p);
  }

  /** One message, whatever else the receive buffer held. */
  lemma ActIsUnderstoodIff(s: Server, before: seq<Act>, a: Act)
    requires Sound(s) && AllLegal(before) && Legal(a)
    requires s.receiveID == AwaitsId(before) && s.buffer[UNSUBSCRIBE_LEN] == Carried(before)
    ensures EventOf(s, InputFor(a)) == MeaningOf(a) <==> InTurn(before, a)
  {
    hide AwaitsId, Carried, Overlay, IdMessage, CStr, Payload, Datagram, FrameOf, Field, WellFormed;
    match a
    case Identifies(fd, id) => IdRoundTrip(id, s.buffer);
    case Subscribes(fd, topic, sf) => SubscribeRoundTrip(fd, topic, sf, s.buffer);
    case Unsubscribes(fd, topic) => UnsubscribeRoundTrip(fd, topic, s.buffer);
    case Publishes(p) => PublicationIsPublished(s, p);
    case _ =>
  }

  /**
   Exactly when a whole conversation is understood: the handler calls are what was meant if and only
   if every message came in its turn.
   */
  lemma {:induction false} UnderstoodIffInTurn(s: Server, acts: seq<Act>)
    requires Fresh(s) && AllLegal(acts)
    ensures Calls(s, InputsFor(acts)) == Meant(acts) <==> AllInTurn(acts)
  {
    hide EventOf, InputFor, MeaningOf, InTurn, Shape, Legal, Handle, BufferAfter, FlagAfter;
    if acts != [] {
      var before, a, ins := acts[..|acts| - 1], acts[|acts| - 1], InputsFor(acts);
      assert ins[..|ins| - 1] == InputsFor(before);
      UnderstoodIffInTurn(s, before);
      ServerCarries(s, before);
      ActIsUnderstoodIff(Serve(s, InputsFor(before)), before, a);
      assert Meant(acts) == Meant(before) + [MeaningOf(a)];
      var es := Calls(s, ins);
      assert es == es[..|es| - 1] + [es[|es| - 1]] && es[..|es| - 1] == Calls(s, InputsFor(before));
      SameLast(es[..|es| - 1], Meant(before), es[|es| - 1], MeaningOf(a));
      LastTurn(acts);
    }
  }

  lemma SameLast(x: seq<Event>, y: seq<Event>, e: Event, f: Event)
    ensures x + [e] == y + [f] <==> x == y && e == f
  {
    if x + [e] == y + [f] {
      assert x == (x + [e])[..|x|] && y == (y + [f])[..|y|];
      assert e == (x + [e])[|x|] && f == (y + [f])[|y|];
    }
  }

  lemma LastTurn(acts: seq<Act>)
    requires acts != [] && AllLegal(acts)
    ensures AllInTurn(acts) <==>
            AllInTurn(acts[..|acts| - 1]) && InTurn(acts[..|acts| - 1], acts[|acts| - 1])
  {
    hide InTurn;
    var before := acts[..|acts| - 1];
    forall n | 0 <= n < |before| ensures InTurn(before[..n], before[n]) <==> InTurn(acts[..n], acts[n]) {
      assert before[..n] == acts[..n];
    }
    if AllInTurn(acts) {
      assert InTurn(acts[..|acts| - 1], acts[|acts| - 1]);
      forall n | 0 <= n < |before| ensures InTurn(before[..n], before[n]) {
        assert InTurn(acts[..n], acts[n]);
      }
    }
  }

  // ---- one ID per connection ----

  /** An ID has been sent on the connection since it was made. */
  function Introduced(acts: seq<Act>, fd: int): bool {
    if acts == [] then false
    else
      match acts[|acts| - 1]
      case Connects(f) => f != fd && Introduced(acts[..|acts| - 1], fd)
      case Identifies(f, _) => f == fd || Introduced(acts[..|acts| - 1], fd)
      case _ => Introduced(acts[..|acts| - 1], fd)
  }

  /** No connection sends a second ID. */
  predicate OneIdEach(acts: seq<Act>) {
    forall n :: 0 <= n < |acts| && acts[n].Identifies? ==> !Introduced(acts[..n], acts[n].fd)
  }

  /** On every open connection the server and the conversation agree on whether it has a client. */
  ghost predicate ClientsIntroduced(t: Server, acts: seq<Act>) {
    forall fd: nat :: fd in t.reg.active && !Listening(t, fd) ==> (Owned(t.reg.clients, fd) <==> Introduced(acts, fd))
  }

  lemma OwnedAfter(t: Server, i: Input, fd: int)
    requires Sound(t) && Shape(i) && fd >= 0 && fd in React(t, i).reg.active
    ensures var e := EventOf(t, i);
            Owned(React(t, i).reg.clients, fd) <==>
              if e.Identify? && e.fd == fd then true else Owned(t.reg.clients, fd)
  {
    var cs, cs', e := t.reg.clients, React(t, i).reg.clients, EventOf(t, i);
    forall m | 0 <= m < |cs| ensures cs'[m] == Step(cs[m], e) {
      StepSocket(cs[m], e);
    }
    if m :| 0 <= m < |cs| && cs[m].sock == fd {
      StepSocket(cs[m], e);
      assert cs'[m].sock == fd;
    }
    if e.Identify? && e.fd == fd {
      if Known(cs, e.id) {
        var m :| 0 <= m < |cs| && cs[m].id == e.id;
        StepSocket(cs[m], e);
        assert cs'[m].sock == fd;
      } else {
        assert cs'[|cs|] == NewClient(fd, e.id);
      }
    } else if m :| 0 <= m < |cs'| && cs'[m].sock == fd {
      if m < |cs| {
        StepSocket(cs[m], e);
      }
    }
  }

  lemma {:induction false} StayIntroduced(t: Server, before: seq<Act>, a: Act)
    requires Consistent(t) && Legal(a) && Possible(t, InputFor(a)) && EventOf(t, InputFor(a)) == MeaningOf(a)
    requires ClientsIntroduced(t, before)
    ensures ClientsIntroduced(React(t, InputFor(a)), before + [a])
  {
    var i := InputFor(a);
    var t', all := React(t, i), before + [a];
    assert all[..|all| - 1] == before;
    hide EventOf, Step, Published;
    forall fd: nat | fd in t'.reg.active && !Listening(t', fd)
      ensures Owned(t'.reg.clients, fd) <==> Introduced(all, fd)
    {
      OwnedAfter(t, i, fd);
      assert fd in t.reg.active || a == Connects(fd);
    }
  }

  /** In turn, exactly a second ID on a connection is an ID read from a client's own socket. */
  lemma SecondIdHijacks(t: Server, before: seq<Act>, a: Act)
    requires Consistent(t) && Legal(a) && Possible(t, InputFor(a)) && ClientsIntroduced(t, before)
    requires AllLegal(before) && t.receiveID == AwaitsId(before) && InTurn(before, a)
    ensures Hijacks(t, InputFor(a)) <==> a.Identifies? && Introduced(before, a.fd)
  {
  }

  /**
   On every possible conversation in turn, no ID is read from a client's own socket if and only if no
   connection sends a second ID.
   */
  lemma {:induction false} NeverHijackedIffOneIdEach(s: Server, acts: seq<Act>)
    requires Fresh(s) && Consistent(s) && AllLegal(acts) && AllInTurn(acts) && PossibleRun(s, InputsFor(acts))
    ensures NeverHijacked(s, InputsFor(acts)) <==> OneIdEach(acts)
    ensures OneIdEach(acts) ==> ClientsIntroduced(Serve(s, InputsFor(acts)), acts)
  {
    hide Fresh, AllLegal, AllInTurn, PossibleRun, NeverHijacked, OneIdEach, ClientsIntroduced, Hijacks, Introduced;
    hide InTurn, EventOf, Consistent, Possible, InputFor, InputsFor, Serve, React;
    if acts == [] {
      NobodyIntroduced(s);
    } else {
      var before := acts[..|acts| - 1];
      LastOfConversation(s, acts);
      NeverHijackedIffOneIdEach(s, before);
      if OneIdEach(before) {
        ConsistentAfter(s, InputsFor(before));
        OneMoreAct(s, acts);
      }
    }
  }

  /** A conversation is its part before the last act, and the last act. */
  lemma {:induction false} LastOfConversation(s: Server, acts: seq<Act>)
    requires Sound(s) && AllLegal(acts) && AllInTurn(acts) && PossibleRun(s, InputsFor(acts)) && acts != []
    ensures var before, a := acts[..|acts| - 1], acts[|acts| - 1];
            && AllLegal(before) && Legal(a) && AllInTurn(before) && InTurn(before, a)
            && PossibleRun(s, InputsFor(before))
            && var t := Serve(s, InputsFor(before));
               && Possible(t, InputFor(a))
               && (NeverHijacked(s, InputsFor(acts)) <==>
                   NeverHijacked(s, InputsFor(before)) && !Hijacks(t, InputFor(a)))
               && (OneIdEach(acts) <==> OneIdEach(before) && !(a.Identifies? && Introduced(before, a.fd)))
  {
    hide InputFor, InputsFor, Legal, Shape, Shapes, InTurn, Possible, Hijacks, Introduced, Serve, Sound;
    hide AllLegal, AllInTurn, PossibleRun, NeverHijacked, OneIdEach;
    var ins := InputsFor(acts);
    LastInput(acts);
    LastTurn(acts);
    LastIsPossible(s, ins);
    LastHijack(s, ins);
    LastId(acts);
  }

  lemma LastInput(acts: seq<Act>)
    requires AllLegal(acts) && acts != []
    ensures var n, ins := |acts| - 1, InputsFor(acts);
            && AllLegal(acts[..n]) && Legal(acts[n])
            && ins[..|ins| - 1] == InputsFor(acts[..n]) && ins[|ins| - 1] == InputFor(acts[n])
  {
    hide InputFor, Legal, Shape;
  }

  lemma {:induction false} ConsistentAfter(s: Server, ins: seq<Input>)
    requires Consistent(s) && Shapes(ins) && PossibleRun(s, ins) && NeverHijacked(s, ins)
    ensures Consistent(Serve(s, ins))
  {
    ConsistentUpTo(s, ins, |ins|);
    assert ins[..|ins|] == ins;
  }

  lemma {:induction false} NextState(s: Server, acts: seq<Act>)
    requires Sound(s) && acts != [] && AllLegal(acts)
    ensures var n := |acts| - 1;
            Serve(s, InputsFor(acts)) == React(Serve(s, InputsFor(acts[..n])), InputFor(acts[n]))
  {
    hide React, InputFor, Legal, Shape;
    var n, ins := |acts| - 1, InputsFor(acts);
    assert ins[..n] == InputsFor(acts[..n]) && ins[n] == InputFor(acts[n]);
  }

  lemma {:induction false} OneMoreAct(s: Server, acts: seq<Act>)
    requires Fresh(s) && acts != [] && AllLegal(acts)
    requires var before, a := acts[..|acts| - 1], acts[|acts| - 1];
             var t := Serve(s, InputsFor(before));
             Consistent(t) && Possible(t, InputFor(a)) && InTurn(before, a) && ClientsIntroduced(t, before)
    ensures var before, a := acts[..|acts| - 1], acts[|acts| - 1];
            var t := Serve(s, InputsFor(before));
            && (Hijacks(t, InputFor(a)) <==> a.Identifies? && Introduced(before, a.fd))
            && ClientsIntroduced(Serve(s, InputsFor(acts)), acts)
  {
    hide InTurn, EventOf, Consistent, Possible, Introduced, Hijacks, InputFor, MeaningOf, AwaitsId, Carried, React;
    hide ClientsIntroduced, Legal, Shape;
    var before, a := acts[..|acts| - 1], acts[|acts| - 1];
    assert before + [a] == acts;
    NextState(s, acts);
    ServerCarries(s, before);
    hide InputsFor, Serve;
    var t := Serve(s, InputsFor(before));
    SecondIdHijacks(t, before, a);
    ActIsUnderstoodIff(t, before, a);
    StayIntroduced(t, before, a);
  }

  lemma NobodyIntroduced(s: Server)
    requires Fresh(s)
    ensures Serve(s, InputsFor([])) == s && ClientsIntroduced(s, [])
    ensures NeverHijacked(s, InputsFor([])) && OneIdEach([])
  {
  }

  lemma LastId(acts: seq<Act>)
    requires acts != []
    ensures var n := |acts| - 1;
            OneIdEach(acts) <==>
            OneIdEach(acts[..n]) && !(acts[n].Identifies? && Introduced(acts[..n], acts[n].fd))
  {
    hide Introduced;
    var n := |acts| - 1;
    assert forall m :: 0 <= m < n ==> acts[..n][..m] == acts[..m] && acts[..n][m] == acts[m];
    if OneIdEach(acts) {
      forall m | 0 <= m < n && acts[..n][m].Identifies? ensures !Introduced(acts[..n][..m], acts[..n][m].fd) {
        assert !Introduced(acts[..m], acts[m].fd);
      }
    }
  }

  lemma {:induction false} LastHijack(s: Server, ins: seq<Input>)
    requires Sound(s) && Shapes(ins) && ins != []
    ensures var n := |ins| - 1;
            NeverHijacked(s, ins) <==> NeverHijacked(s, ins[..n]) && !Hijacks(Serve(s, ins[..n]), ins[n])
  {
    hide Hijacks, Serve;
    var n := |ins| - 1;
    assert forall m :: 0 <= m < n ==> ins[..n][..m] == ins[..m] && ins[..n][m] == ins[m];
    if NeverHijacked(s, ins) {
      forall m | 0 <= m < n ensures !Hijacks(Serve(s, ins[..n][..m]), ins[..n][m]) {
        assert !Hijacks(Serve(s, ins[..m]), ins[m]);
      }
    }
  }

  lemma {:induction false} LastIsPossible(s: Server, ins: seq<Input>)
    requires Sound(s) && Shapes(ins) && ins != [] && PossibleRun(s, ins)
    ensures PossibleRun(s, ins[..|ins| - 1]) && Possible(Serve(s, ins[..|ins| - 1]), ins[|ins| - 1])
  {
    hide Possible, Serve;
    var n := |ins| - 1;
    forall m | 0 <= m < n ensures Possible(Serve(s, ins[..n][..m]), ins[..n][m]) {
      assert ins[..n][..m] == ins[..m];
    }
  }
}
