/**
 What a subscriber's socket carries. The server keeps one stream per record; a subscriber reads one
 per connection. They are the same exactly while no ID is read from a client's own socket.
 */
module Sockets {
  import opened Bytes
  import opened Options
  import opened Subscriptions
  import opened Broker
  import opened History
  import opened Wire
  import opened Messages
  import opened Dispatch
  import opened Handshake
  import opened Conversation

  /** Of some sends, the frames that go out on one descriptor. */
  function On(sends: seq<Send>, fd: int): seq<Frame> {
    if sends == [] then [] else (if sends[0].sock == fd then [sends[0].frame] else []) + On(sends[1..], fd)
  }

  /** What one event puts on a descriptor, record by record. */
  function Put(cs: seq<Client>, e: Event, fd: int): seq<Frame> {
    if cs == [] then [] else On(NewSends(cs[0], e), fd) + Put(cs[1..], e, fd)
  }

  /** What arrives at the other end of a descriptor: everything sent on it since it was accepted. */
  function Wired(s: Server, ins: seq<Input>, fd: int): seq<Frame>
    requires Sound(s) && Shapes(ins)
  {
    if ins == [] then []
    else
      var before, i := ins[..|ins| - 1], ins[|ins| - 1];
      if i == Connection(fd) then []
      else Wired(s, before, fd) + Put(Serve(s, before).reg.clients, EventOf(Serve(s, before), i), fd)
  }

  // ---- one event ----

  lemma {:induction false} AllOn(sends: seq<Send>, fd: int)
    requires forall i :: 0 <= i < |sends| ==> sends[i].sock == fd
    ensures On(sends, fd) == Frames(sends)
  {
    if sends != [] {
      AllOn(sends[1..], fd);
      assert Frames(sends) == [sends[0].frame] + Frames(sends[1..]);
    }
  }

  lemma {:induction false} NoneOn(sends: seq<Send>, fd: int)
    requires forall i :: 0 <= i < |sends| ==> sends[i].sock != fd
    ensures On(sends, fd) == []
  {
    if sends != [] {
      NoneOn(sends[1..], fd);
    }
  }

  /** What a step sends goes out on the socket the record has afterwards, and nowhere else. */
  lemma {:induction false} StepPuts(c: Client, e: Event, fd: int)
    requires e.Identify? ==> e.fd != OFFLINE
    ensures On(NewSends(c, e), fd) == if Step(c, e).sock == fd then Frames(NewSends(c, e)) else []
  {
    SendsUseTheCurrentSession(c, e);
    hide Step;
    if Step(c, e).sock == fd {
      AllOn(NewSends(c, e), fd);
    } else {
      NoneOn(NewSends(c, e), fd);
    }
  }

  lemma {:induction false} PutNothing(cs: seq<Client>, e: Event, fd: int)
    requires e.Identify? ==> e.fd != OFFLINE
    requires forall m :: 0 <= m < |cs| ==> Step(cs[m], e).sock != fd || NewSends(cs[m], e) == []
    ensures Put(cs, e, fd) == []
  {
    hide Step;
    if cs != [] {
      StepPuts(cs[0], e, fd);
      PutNothing(cs[1..], e, fd);
    }
  }

  /** The descriptor belongs to one record: it carries what that one is sent. */
  lemma {:induction false} PutForOne(cs: seq<Client>, e: Event, fd: int, j: nat)
    requires (e.Identify? ==> e.fd != OFFLINE) && j < |cs| && Step(cs[j], e).sock == fd
    requires forall m :: 0 <= m < |cs| && m != j ==> Step(cs[m], e).sock != fd
    ensures Put(cs, e, fd) == Frames(NewSends(cs[j], e))
  {
    hide Step, NewSends;
    StepPuts(cs[0], e, fd);
    if j == 0 {
      PutNothing(cs[1..], e, fd);
    } else {
      PutForOne(cs[1..], e, fd, j - 1);
    }
  }

  /** The descriptor belongs to several: it carries at least what one of them is sent, */
  lemma {:induction false} PutForEach(cs: seq<Client>, e: Event, fd: int, j: nat)
    requires (e.Identify? ==> e.fd != OFFLINE) && j < |cs| && Step(cs[j], e).sock == fd
    ensures |Put(cs, e, fd)| >= |NewSends(cs[j], e)|
  {
    hide Step, NewSends;
    StepPuts(cs[0], e, fd);
    if j > 0 {
      PutForEach(cs[1..], e, fd, j - 1);
    }
  }

  /** and what another one is sent too. */
  lemma {:induction false} PutForBoth(cs: seq<Client>, e: Event, fd: int, j: nat, m: nat)
    requires (e.Identify? ==> e.fd != OFFLINE) && j < m < |cs|
    requires Step(cs[j], e).sock == fd && Step(cs[m], e).sock == fd
    ensures |Put(cs, e, fd)| >= |NewSends(cs[j], e)| + |NewSends(cs[m], e)|
  {
    hide Step, NewSends;
    StepPuts(cs[0], e, fd);
    if j > 0 {
      PutForBoth(cs[1..], e, fd, j - 1, m - 1);
    } else {
      PutForEach(cs[1..], e, fd, m - 1);
    }
  }

  // ---- one run ----

  /** What the run has meant for an ID. */
  function LifeIn(s: Server, ins: seq<Input>, k: seq<byte>): Life
    requires Sound(s) && Shapes(ins)
  {
    LifeOf(k, Calls(s, ins))
  }

  /** The socket of a client online is open, and has carried its session and nothing else. */
  ghost predicate CarriesSession(s: Server, ins: seq<Input>, k: seq<byte>)
    requires Sound(s) && Shapes(ins)
  {
    var l := LifeIn(s, ins, k);
    Online(l) ==>
      && l.sock in Serve(s, ins).reg.active
      && Wired(s, ins, l.sock) == Frames(SessionSends(k, Calls(s, ins)))
  }

  ghost predicate SocketsCarrySessions(s: Server, ins: seq<Input>)
    requires Sound(s) && Shapes(ins)
  {
    forall k :: CarriesSession(s, ins, k)
  }

  /** Nothing has been sent on a connection without a client. */
  ghost predicate StrangersReadNothing(s: Server, ins: seq<Input>)
    requires Sound(s) && Shapes(ins)
  {
    forall fd: nat :: Stranger(Serve(s, ins), fd) ==> Wired(s, ins, fd) == []
  }

  lemma {:induction false} PartOfRun(s: Server, ins: seq<Input>, n: nat)
    requires Sound(s) && Shapes(ins) && PossibleRun(s, ins) && n <= |ins|
    ensures PossibleRun(s, ins[..n])
    ensures NeverHijacked(s, ins) ==> NeverHijacked(s, ins[..n])
  {
    hide Possible, Hijacks, Serve;
    forall m | 0 <= m < n
      ensures Possible(Serve(s, ins[..n][..m]), ins[..n][m])
      ensures NeverHijacked(s, ins) ==> !Hijacks(Serve(s, ins[..n][..m]), ins[..n][m])
    {
      assert ins[..n][..m] == ins[..m];
    }
  }

  /** The record of an ID in the table, with its place. */
  lemma {:induction false} RecordOf(s: Server, ins: seq<Input>, k: seq<byte>) returns (j: nat)
    requires Sound(s) && s.reg.clients == [] && Shapes(ins)
    ensures var cs, c := Serve(s, ins).reg.clients, Solo(k, Calls(s, ins));
            if c.Some?
            then && j < |cs| && cs[j] == c.value && c.value.id == k
                 && LifeIn(s, ins, k) == Present(c.value.sock, c.value.subs)
            else LifeIn(s, ins, k) == Absent && forall m :: 0 <= m < |cs| ==> cs[m].id != k
  {
    hide LifeOf, Serve;
    ServeIsRun(s, ins);
    RunIsSolo(s.reg, k, Calls(s, ins));
    StoreAndForward(k, Calls(s, ins));
    var cs := Serve(s, ins).reg.clients;
    j := 0;
    if Lookup(cs, k).Some? {
      j :| 0 <= j < |cs| && cs[j] == Lookup(cs, k).value;
    }
  }

  /** The last input as an event of the run. */
  lemma LastCall(s: Server, ins: seq<Input>)
    requires Sound(s) && Shapes(ins) && ins != []
    ensures var before, es := ins[..|ins| - 1], Calls(s, ins);
            && Front(es) == Calls(s, before)
            && Last(es) == EventOf(Serve(s, before), ins[|ins| - 1])
            && Serve(s, ins) == React(Serve(s, before), ins[|ins| - 1])
  {
  }

  /** A connection that is about to be given to a client has had none. */
  lemma NewSocketIsStrange(t: Server, i: Input)
    requires Consistent(t) && Possible(t, i) && !Hijacks(t, i) && EventOf(t, i).Identify?
    ensures EventOf(t, i).fd == i.fd >= 0 && Stranger(t, i.fd)
  {
  }

  /** Only this record is on the socket after the step. */
  lemma AloneOnSocket(t: Server, i: Input, j: nat)
    requires Sound(t) && Shape(i) && Consistent(React(t, i)) && j < |React(t, i).reg.clients|
    requires React(t, i).reg.clients[j].sock != OFFLINE
    ensures forall m :: 0 <= m < |t.reg.clients| && m != j ==>
              Step(t.reg.clients[m], EventOf(t, i)).sock != React(t, i).reg.clients[j].sock
    ensures j < |t.reg.clients| ==> React(t, i).reg.clients[j] == Step(t.reg.clients[j], EventOf(t, i))
    ensures React(t, i).reg.clients[j].sock in React(t, i).reg.active
  {
    hide Step, EventOf;
    var cs, cs', e := t.reg.clients, React(t, i).reg.clients, EventOf(t, i);
    forall m | 0 <= m < |cs| && m != j ensures Step(cs[m], e).sock != cs'[j].sock {
      assert cs'[m] == Step(cs[m], e);
    }
  }

  /** So what it carries in the step is what the record is sent. */
  lemma {:induction false} PutIsSent(t: Server, i: Input, j: nat)
    requires Sound(t) && Shape(i) && Consistent(React(t, i)) && j < |React(t, i).reg.clients|
    requires React(t, i).reg.clients[j].sock != OFFLINE
    ensures var cs, e := t.reg.clients, EventOf(t, i);
            Put(cs, e, React(t, i).reg.clients[j].sock) == if j < |cs| then Frames(NewSends(cs[j], e)) else []
  {
    hide Step, NewSends, React, Consistent;
    var cs, e, fd := t.reg.clients, EventOf(t, i), React(t, i).reg.clients[j].sock;
    AloneOnSocket(t, i, j);
    if j < |cs| {
      PutForOne(cs, e, fd, j);
    } else {
      PutNothing(cs, e, fd);
    }
  }

  /** Since when a record has been on its socket: from before, or from this step on a fresh connection. */
  lemma SocketSince(t: Server, i: Input, j: nat)
    requires Consistent(t) && Possible(t, i) && !Hijacks(t, i) && j < |React(t, i).reg.clients|
    requires React(t, i).reg.clients[j].sock != OFFLINE
    ensures var cs, fd := t.reg.clients, React(t, i).reg.clients[j].sock;
            && i != Connection(fd)
            && if j < |cs| && cs[j].sock != OFFLINE then cs[j].sock == fd else fd >= 0 && Stranger(t, fd)
  {
    var cs, e, fd := t.reg.clients, EventOf(t, i), React(t, i).reg.clients[j].sock;
    if j < |cs| {
      StepSocket(cs[j], e);
    }
    if e.Identify? {
      NewSocketIsStrange(t, i);
    }
  }

  /** An ID keeps its place in the table. */
  lemma {:induction false} SamePlace(s: Server, ins: seq<Input>, k: seq<byte>) returns (j: nat)
    requires Sound(s) && s.reg.clients == [] && Shapes(ins) && ins != [] && Consistent(Serve(s, ins))
    requires Online(LifeIn(s, ins, k))
    ensures var cs, cs', es := Serve(s, ins[..|ins| - 1]).reg.clients, Serve(s, ins).reg.clients, Calls(s, ins);
            && j < |cs'| && Solo(k, es) == Some(cs'[j]) && cs'[j].sock == LifeIn(s, ins, k).sock
            && Solo(k, Front(es)) == if j < |cs| then Some(cs[j]) else None
  {
    hide Step, LifeIn, Solo, SocketsOpen, DistinctSockets, EventOf;
    var before := ins[..|ins| - 1];
    var j0 := RecordOf(s, before, k);
    j := RecordOf(s, ins, k);
    LastCall(s, ins);
    SameIds(Serve(s, before), ins[|ins| - 1]);
    hide React, Serve, Calls, Shapes;
    var cs, cs' := Serve(s, before).reg.clients, Serve(s, ins).reg.clients;
    if Solo(k, Front(Calls(s, ins))).Some? {
      assert cs'[j0].id == cs'[j].id;
    }
  }

  lemma SameIds(t: Server, i: Input)
    requires Sound(t) && Shape(i)
    ensures var cs, cs' := t.reg.clients, React(t, i).reg.clients;
            |cs'| >= |cs| && forall m :: 0 <= m < |cs| ==> cs'[m].id == cs[m].id
  {
    hide EventOf;
  }

  lemma {:induction false} SocketCarriesOn(s: Server, ins: seq<Input>, k: seq<byte>)
    requires Sound(s) && s.reg.clients == [] && Shapes(ins) && ins != []
    requires var before, i := ins[..|ins| - 1], ins[|ins| - 1];
             var t := Serve(s, before);
             && Consistent(t) && Possible(t, i) && !Hijacks(t, i) && Consistent(React(t, i))
             && CarriesSession(s, before, k) && StrangersReadNothing(s, before)
    ensures CarriesSession(s, ins, k)
  {
    var before, i, es := ins[..|ins| - 1], ins[|ins| - 1], Calls(s, ins);
    var t := Serve(s, before);
    LastCall(s, ins);
    if Online(LifeIn(s, ins, k)) {
      var j := SamePlace(s, ins, k);
      OnlineBefore(s, before, k);
      PutIsSent(t, i, j);
      AloneOnSocket(t, i, j);
      SocketSince(t, i, j);
      SessionAfter(k, es);
      hide LifeOf, Step, SessionSends, NewSends, EventOf, React, Consistent, Possible, Solo;
      var more := if j < |t.reg.clients| then NewSends(t.reg.clients[j], EventOf(t, i)) else [];
      if Online(LifeIn(s, before, k)) {
        FramesConcat(SessionSends(k, Front(es)), more);
      }
    }
  }

  lemma {:induction false} OnlineBefore(s: Server, ins: seq<Input>, k: seq<byte>)
    requires Sound(s) && s.reg.clients == [] && Shapes(ins)
    ensures match Solo(k, Calls(s, ins))
            case None => LifeIn(s, ins, k) == Absent
            case Some(c) => LifeIn(s, ins, k) == Present(c.sock, c.subs)
  {
    StoreAndForward(k, Calls(s, ins));
  }

  lemma FramesConcat(a: seq<Send>, b: seq<Send>)
    ensures Frames(a + b) == Frames(a) + Frames(b)
  {
  }

  /** A connection that is without client after a step was without one before, or is new. */
  lemma StrangerBefore(t: Server, i: Input, fd: nat)
    requires Consistent(t) && Possible(t, i) && Stranger(React(t, i), fd)
    ensures i == Connection(fd) || Stranger(t, fd)
    ensures forall m :: 0 <= m < |t.reg.clients| ==> Step(t.reg.clients[m], EventOf(t, i)).sock != fd
  {
    var cs, cs', e := t.reg.clients, React(t, i).reg.clients, EventOf(t, i);
    forall m | 0 <= m < |cs| ensures Step(cs[m], e).sock != fd {
      assert cs'[m] == Step(cs[m], e);
    }
    if m :| 0 <= m < |cs| && cs[m].sock == fd {
      StepSocket(cs[m], e);
      assert e.Disconnect? && e.fd == fd;
    }
  }

  lemma {:induction false} StrangersReadOn(s: Server, ins: seq<Input>)
    requires Sound(s) && Shapes(ins) && ins != []
    requires var t := Serve(s, ins[..|ins| - 1]); Consistent(t) && Possible(t, ins[|ins| - 1])
    requires StrangersReadNothing(s, ins[..|ins| - 1])
    ensures StrangersReadNothing(s, ins)
  {
    var t, i := Serve(s, ins[..|ins| - 1]), ins[|ins| - 1];
    hide EventOf, Step, React, Consistent, Possible, Stranger, Put;
    forall fd: nat | Stranger(Serve(s, ins), fd) ensures Wired(s, ins, fd) == [] {
      StrangerBefore(t, i, fd);
      CallIsReal(t, i);
      PutNothing(t.reg.clients, EventOf(t, i), fd);
    }
  }

  lemma CallIsReal(t: Server, i: Input)
    requires Sound(t) && Shape(i)
    ensures EventOf(t, i).Identify? ==> EventOf(t, i).fd != OFFLINE
  {
  }

  /**
   On every run on which no ID is read from a client's own socket, the socket of every client online
   has carried its session and nothing else, and a connection without client has carried nothing.
   */
  lemma {:induction false} SocketsAreSessions(s: Server, ins: seq<Input>)
    requires Consistent(s) && s.reg.clients == [] && Shapes(ins)
    requires PossibleRun(s, ins) && NeverHijacked(s, ins)
    ensures SocketsCarrySessions(s, ins) && StrangersReadNothing(s, ins)
  {
    hide Consistent, CarriesSession, StrangersReadNothing, Hijacks, Possible, Serve;
    if ins == [] {
      NothingYet(s);
    } else {
      var n := |ins| - 1;
      PartOfRun(s, ins, n);
      SocketsAreSessions(s, ins[..n]);
      ConsistentUpTo(s, ins, n);
      ConsistentUpTo(s, ins, n + 1);
      ServeNext(s, ins, n);
      assert ins[..n + 1] == ins;
      StrangersReadOn(s, ins);
      forall k ensures CarriesSession(s, ins, k) {
        assert CarriesSession(s, ins[..n], k);
        SocketCarriesOn(s, ins, k);
      }
    }
  }

  lemma NothingYet(s: Server)
    requires Sound(s)
    ensures SocketsCarrySessions(s, []) && StrangersReadNothing(s, [])
  {
  }

  // ---- and only on those ----

  /** What comes after a run is possible, and no ID in it is read from a client's own socket. */
  predicate Continues(s: Server, ins: seq<Input>, more: seq<Input>)
    requires Sound(s) && Shapes(ins)
  {
    && Shapes(more) && PossibleRun(s, ins + more)
    && forall n :: |ins| <= n < |ins + more| ==> !Hijacks(Serve(s, (ins + more)[..n]), (ins + more)[n])
  }

  /** Whatever comes, short of another such ID, every socket carries its client's session. */
  ghost predicate CarriesFromHere(s: Server, ins: seq<Input>)
    requires Sound(s) && Shapes(ins)
  {
    forall more :: Continues(s, ins, more) ==> SocketsCarrySessions(s, ins + more)
  }

  /** After the run, record `j` is the one of `k`, on socket `fd`. */
  ghost predicate At(s: Server, ins: seq<Input>, k: seq<byte>, j: nat, fd: int)
    requires Sound(s) && Shapes(ins)
  {
    var cs := Serve(s, ins).reg.clients;
    && j < |cs| && cs[j].id == k && cs[j].sock == fd != OFFLINE
    && Solo(k, Calls(s, ins)) == Some(cs[j])
    && Online(LifeIn(s, ins, k)) && LifeIn(s, ins, k).sock == fd
  }

  /** How many frames the socket has carried beyond the session of `k`. */
  ghost function Surplus(s: Server, ins: seq<Input>, k: seq<byte>, fd: int): int
    requires Sound(s) && Shapes(ins) && Online(LifeIn(s, ins, k))
  {
    |Wired(s, ins, fd)| - |SessionSends(k, Calls(s, ins))|
  }

  lemma {:induction false} StaysAt(s: Server, ins: seq<Input>, k: seq<byte>, j: nat, fd: int)
    requires Sound(s) && s.reg.clients == [] && Shapes(ins) && ins != [] && At(s, ins[..|ins| - 1], k, j, fd)
    requires ins[|ins| - 1] != Connection(fd)
    requires var t := Serve(s, ins[..|ins| - 1]); Step(t.reg.clients[j], EventOf(t, ins[|ins| - 1])).sock == fd
    ensures At(s, ins, k, j, fd)
    ensures var before, t := ins[..|ins| - 1], Serve(s, ins[..|ins| - 1]);
            var e := EventOf(t, ins[|ins| - 1]);
            && Wired(s, ins, fd) == Wired(s, before, fd) + Put(t.reg.clients, e, fd)
            && SessionSends(k, Calls(s, ins)) == SessionSends(k, Calls(s, before)) + NewSends(t.reg.clients[j], e)
            && Surplus(s, ins, k, fd) == Surplus(s, ins[..|ins| - 1], k, fd)
                                         + |Put(t.reg.clients, e, fd)| - |NewSends(t.reg.clients[j], e)|
            && |NewSends(t.reg.clients[j], e)| <= |Put(t.reg.clients, e, fd)|
  {
    var before, es := ins[..|ins| - 1], Calls(s, ins);
    var t := Serve(s, before);
    LastCall(s, ins);
    CallIsReal(t, ins[|ins| - 1]);
    OnlineBefore(s, ins, k);
    SessionAfter(k, es);
    PutForEach(t.reg.clients, EventOf(t, ins[|ins| - 1]), fd, j);
  }

  /** An ID of no live client, read from a client's socket: another record gets that socket too. */
  lemma HijackShares(t: Server, i: Input, j: nat) returns (m: nat)
    requires Consistent(t) && Possible(t, i) && Hijacks(t, i)
    requires j < |t.reg.clients| && t.reg.clients[j].sock == i.fd
    ensures var cs, cs', e := t.reg.clients, React(t, i).reg.clients, EventOf(t, i);
            && !React(t, i).receiveID && i.fd >= 0 && cs'[j] == cs[j] == Step(cs[j], e)
            && (i.fd in React(t, i).reg.active ==> m < |cs'| && m != j && cs'[m].sock == i.fd)
  {
    var cs, e := t.reg.clients, EventOf(t, i);
    var cs' := React(t, i).reg.clients;
    assert cs'[j] == Step(cs[j], e);
    m := |cs|;
    if Taken(cs, e.id) {
    } else if Known(cs, e.id) {
      m :| 0 <= m < |cs| && cs[m].id == e.id;
      StepSocket(cs[m], e);
      assert cs'[m].sock == i.fd;
    } else {
      assert cs'[m] == NewClient(e.fd, e.id);
    }
  }

  /** Once a record on the socket has subscribed, a publication sends it at least one copy there. */
  lemma FreshEntryReceives(c: Client, fd: int, topic: seq<byte>, sf: int, frame: Frame)
    requires c.sock == fd != OFFLINE
    ensures var d := Step(c, Subscribe(fd, topic, sf));
            && d.sock == fd && NewSends(c, Subscribe(fd, topic, sf)) == []
            && NewSends(d, Publish(topic, frame)) != [] && Step(d, Publish(topic, frame)).sock == fd
  {
    var d := Step(c, Subscribe(fd, topic, sf));
    DeliverIsRepeat(d, topic, frame, |d.subs|);
    assert d.subs[..|d.subs|] == d.subs && d.subs[0] == Sub(topic, sf);
  }

  lemma {:induction false} OwnerIsAt(s: Server, ins: seq<Input>, j: nat)
    requires Sound(s) && s.reg.clients == [] && Shapes(ins) && j < |Serve(s, ins).reg.clients|
    requires DistinctIds(Serve(s, ins).reg.clients) && Serve(s, ins).reg.clients[j].sock != OFFLINE
    ensures var c := Serve(s, ins).reg.clients[j]; At(s, ins, c.id, j, c.sock)
  {
    var m := RecordOf(s, ins, Serve(s, ins).reg.clients[j].id);
  }

  /** A subscription is read as one while the flag is down, and leaves it down. */
  lemma {:induction false} SubscriptionIsRead(u: Server, fd: int, topic: seq<byte>, sf: int)
    requires Sound(u) && !u.receiveID && fd >= 0 && Topic(topic) && -0x8000_0000 <= sf < 0x8000_0000
    ensures var i := Received(fd, SubscribeRequest(topic, sf));
            var e := Broker.Subscribe(fd, topic, sf);
            && EventOf(u, i) == e && !React(u, i).receiveID && React(u, i).reg == Handle(u.reg, e)
            && React(u, i).reg.clients == StepAll(u.reg.clients, e)
  {
    hide Overlay, SubscribeRequest, DecodeRequest, StepAll, Active;
    SubscribeRoundTrip(fd, topic, sf, u.buffer);
    assert StepAll(u.reg.clients, Broker.Subscribe(fd, topic, sf)) + [] ==
           StepAll(u.reg.clients, Broker.Subscribe(fd, topic, sf));
  }

  /** What a subscription by, and a publication for, the two records on a socket put on it. */
  lemma {:induction false} BothReceive(
    cs: seq<Client>, j: nat, m: nat, fd: int, topic: seq<byte>, sf: int, frame: Frame)
    requires j < |cs| && m < |cs| && j != m && cs[j].sock == cs[m].sock == fd != OFFLINE
    ensures var sub, news := Broker.Subscribe(fd, topic, sf), Publish(topic, frame);
            var after := StepAll(cs, sub);
            && NewSends(cs[j], sub) == [] && Step(cs[j], sub).sock == Step(after[j], news).sock == fd
            && |Put(after, news, fd)| > |NewSends(after[j], news)|
  {
    FreshEntryReceives(cs[j], fd, topic, sf, frame);
    FreshEntryReceives(cs[m], fd, topic, sf, frame);
    var after := StepAll(cs, Broker.Subscribe(fd, topic, sf));
    hide Step, NewSends;
    if j < m {
      PutForBoth(after, Publish(topic, frame), fd, j, m);
    } else {
      PutForBoth(after, Publish(topic, frame), fd, m, j);
    }
  }

  /** The socket of a client online has carried more frames than were sent to the client. */
  ghost predicate CarriesMore(s: Server, ins: seq<Input>, k: seq<byte>, fd: int)
    requires Sound(s) && Shapes(ins)
  {
    && Online(LifeIn(s, ins, k)) && LifeIn(s, ins, k).sock == fd
    && |Wired(s, ins, fd)| > |SessionSends(k, Calls(s, ins))|
  }

  lemma {:induction false} SharedOrClosed(s: Server, ins: seq<Input>, k: seq<byte>, fd: int)
    requires Sound(s) && Shapes(ins)
    requires CarriesMore(s, ins, k, fd) ||
             (Online(LifeIn(s, ins, k)) && LifeIn(s, ins, k).sock == fd && fd !in Serve(s, ins).reg.active)
    ensures !CarriesSession(s, ins, k)
  {
    hide Wired, SessionSends, LifeIn, Serve, Calls;
  }

  /** A subscription on a socket and a publication for it. */
  function Probe(fd: int, p: Publication, sf: int): (more: seq<Input>)
    requires fd >= 0 && WellSent(p) && -0x8000_0000 <= sf < 0x8000_0000
    ensures Shapes(more)
  {
    [InputFor(Subscribes(fd, p.topic, sf)), InputFor(Publishes(p))]
  }

  /** The last input of a possible run is the first ID read from a client's own socket. */
  predicate EndsInFirstHijack(s: Server, ins: seq<Input>)
    requires Sound(s) && Shapes(ins)
  {
    && ins != [] && PossibleRun(s, ins)
    && NeverHijacked(s, ins[..|ins| - 1])
    && Hijacks(Serve(s, ins[..|ins| - 1]), ins[|ins| - 1])
  }

  /**
   After an ID is read from the socket of a client, either that socket is closed under the client,
   or any one more subscription and publication on it make it carry more than the client's session.
   */
  lemma {:induction false} HijackLeaks(s: Server, ins: seq<Input>) returns (k: seq<byte>)
    requires Consistent(s) && s.reg.clients == [] && Shapes(ins) && EndsInFirstHijack(s, ins)
    ensures var i, l := ins[|ins| - 1], LifeIn(s, ins, k); i.Received? && Online(l) && l.sock == i.fd >= 0
    ensures var fd := LifeIn(s, ins, k).sock;
            fd in Serve(s, ins).reg.active ==>
              forall p, sf :: WellSent(p) && -0x8000_0000 <= sf < 0x8000_0000 ==>
                Continues(s, ins, Probe(fd, p, sf)) && CarriesMore(s, ins + Probe(fd, p, sf), k, fd)
  {
    var n := |ins| - 1;
    var before, i := ins[..n], ins[n];
    var t, fd := Serve(s, before), i.fd;
    PartOfRun(s, ins, n);
    assert before[..n] == before;
    ConsistentUpTo(s, before, n);
    SocketsAreSessions(s, before);
    PossibleAt(s, ins, n);
    var j: nat :| j < |t.reg.clients| && t.reg.clients[j].sock == fd;
    k := t.reg.clients[j].id;
    OwnerIsAt(s, before, j);
    assert CarriesSession(s, before, k);
    var m := HijackShares(t, i, j);
    hide Consistent, Hijacks, Step, EventOf, PossibleRun, NeverHijacked, Calls, SocketsCarrySessions;
    StaysAt(s, ins, k, j, fd);
    assert Surplus(s, ins, k, fd) >= 0;
    hide React, Wired, SessionSends, Surplus, StrangersReadNothing, Possible, Shape, WellSent;
    if fd in Serve(s, ins).reg.active {
      forall p, sf | WellSent(p) && -0x8000_0000 <= sf < 0x8000_0000
        ensures Continues(s, ins, Probe(fd, p, sf)) && CarriesMore(s, ins + Probe(fd, p, sf), k, fd)
      {
        ProbeLeaks(s, ins, k, j, m, fd, p, sf);
      }
    }
  }

  /** What the two inputs add to the socket and to the session of a client on it. */
  lemma {:induction false} ProbeAdds(s: Server, a: seq<Input>, k: seq<byte>, j: nat, fd: int, p: Publication, sf: int)
    requires Sound(s) && s.reg.clients == [] && Shapes(a) && PossibleRun(s, a) && At(s, a, k, j, fd)
    requires var u := Serve(s, a); !u.receiveID && fd >= 0 && fd in u.reg.active && !Listening(u, fd)
    requires WellSent(p) && -0x8000_0000 <= sf < 0x8000_0000
    ensures var all, cs := a + Probe(fd, p, sf), Serve(s, a).reg.clients;
            var sub, news := Broker.Subscribe(fd, p.topic, sf), NewsOf(p);
            && Continues(s, a, Probe(fd, p, sf)) && At(s, all, k, j, fd)
            && Wired(s, all, fd) == Wired(s, a, fd) + Put(cs, sub, fd) + Put(StepAll(cs, sub), news, fd)
            && SessionSends(k, Calls(s, all)) ==
               SessionSends(k, Calls(s, a)) + NewSends(cs[j], sub) + NewSends(Step(cs[j], sub), news)
  {
    hide Step, NewSends, EventOf, React, InputFor, NewsOf, Put, Surplus, PossibleRun, Possible, Sound, At, Wired;
    hide Shape, Shapes, Hijacks, Topic, WellFormed, Dotted, Listening, SubscribeRequest, SessionSends, Calls, LifeIn;
    var u, sub, news := Serve(s, a), InputFor(Subscribes(fd, p.topic, sf)), InputFor(Publishes(p));
    ProbeIsRead(u, fd, p, sf);
    NewsIsPublish(p);
    PossibleShape(u, sub);
    PossibleShape(React(u, sub), news);
    SocketAt(s, a, k, j, fd);
    FreshEntryReceives(u.reg.clients[j], fd, p.topic, sf, NewsOf(p).frame);
    ProbeRuns(s, a, sub, news);
    TwoStepsAdd(s, a, sub, news, k, j, fd);
    assert a + [sub] + [news] == a + Probe(fd, p, sf);
  }

  lemma SocketAt(s: Server, ins: seq<Input>, k: seq<byte>, j: nat, fd: int)
    requires Sound(s) && Shapes(ins) && At(s, ins, k, j, fd)
    ensures j < |Serve(s, ins).reg.clients| && Serve(s, ins).reg.clients[j].sock == fd != OFFLINE
  {
  }

  /** Two inputs during which a record stays on its socket. */
  lemma {:induction false} TwoStepsAdd(
    s: Server, a: seq<Input>, x: Input, y: Input, k: seq<byte>, j: nat, fd: int)
    requires Sound(s) && s.reg.clients == [] && Shapes(a) && Shape(x) && Shape(y)
    requires At(s, a, k, j, fd) && !x.Connection? && !y.Connection?
    requires Serve(s, a + [x]) == React(Serve(s, a), x)
    requires var cs, e, e' := Serve(s, a).reg.clients, EventOf(Serve(s, a), x), EventOf(Serve(s, a + [x]), y);
             && Serve(s, a + [x]).reg.clients == StepAll(cs, e)
             && Step(cs[j], e).sock == Step(Step(cs[j], e), e').sock == fd
    ensures var cs, e, e' := Serve(s, a).reg.clients, EventOf(Serve(s, a), x), EventOf(Serve(s, a + [x]), y);
            var all := a + [x] + [y];
            && Shapes(all) && At(s, all, k, j, fd)
            && Wired(s, all, fd) == Wired(s, a, fd) + Put(cs, e, fd) + Put(StepAll(cs, e), e', fd)
            && SessionSends(k, Calls(s, all)) ==
               SessionSends(k, Calls(s, a)) + NewSends(cs[j], e) + NewSends(Step(cs[j], e), e')
  {
    hide Step, NewSends, EventOf, React, Put, Surplus, Sound, Shape, SessionSends, Calls, Wired, LifeIn;
    var b := a + [x];
    assert b[..|b| - 1] == a && b[|b| - 1] == x;
    StaysAt(s, b, k, j, fd);
    var c := b + [y];
    assert c[..|c| - 1] == b && c[|c| - 1] == y;
    StaysAt(s, c, k, j, fd);
  }

  /** The handler call of a publication. */
  function NewsOf(p: Publication): (e: Event)
    requires WellSent(p)
  {
    Publish(p.topic, Published(p.topic, p.content, p.ip, p.port))
  }

  lemma NewsIsPublish(p: Publication)
    requires WellSent(p)
    ensures NewsOf(p).Publish? && NewsOf(p) == Publish(p.topic, NewsOf(p).frame)
  {
  }

  lemma {:induction false} ProbeLeaks(
    s: Server, a: seq<Input>, k: seq<byte>, j: nat, m: nat, fd: int, p: Publication, sf: int)
    requires Sound(s) && s.reg.clients == [] && Shapes(a) && PossibleRun(s, a) && At(s, a, k, j, fd)
    requires var u := Serve(s, a);
             && !u.receiveID && fd >= 0 && fd in u.reg.active && !Listening(u, fd)
             && m < |u.reg.clients| && m != j && u.reg.clients[m].sock == fd
    requires Surplus(s, a, k, fd) >= 0 && WellSent(p) && -0x8000_0000 <= sf < 0x8000_0000
    ensures Continues(s, a, Probe(fd, p, sf)) && CarriesMore(s, a + Probe(fd, p, sf), k, fd)
  {
    hide Step, NewSends, Wired, SessionSends, Published, Put, Probe, WellSent, Shapes, PossibleRun, Continues;
    var cs := Serve(s, a).reg.clients;
    ProbeAdds(s, a, k, j, fd, p, sf);
    BothReceive(cs, j, m, fd, p.topic, sf, NewsOf(p).frame);
    assert StepAll(cs, Broker.Subscribe(fd, p.topic, sf))[j] == Step(cs[j], Broker.Subscribe(fd, p.topic, sf));
  }

  lemma {:induction false} ProbeIsRead(u: Server, fd: int, p: Publication, sf: int)
    requires Sound(u) && !u.receiveID && fd >= 0 && fd in u.reg.active && !Listening(u, fd)
    requires WellSent(p) && -0x8000_0000 <= sf < 0x8000_0000
    ensures var sub, news := InputFor(Subscribes(fd, p.topic, sf)), InputFor(Publishes(p));
            var v, e := React(u, sub), Broker.Subscribe(fd, p.topic, sf);
            && sub.Received? && news.Arrived?
            && Possible(u, sub) && !Hijacks(u, sub) && Possible(v, news) && !Hijacks(v, news)
            && EventOf(u, sub) == e && v.reg.clients == StepAll(u.reg.clients, e)
            && EventOf(v, news) == NewsOf(p)
  {
    hide StepAll, Published, Datagram, SubscribeRequest, EventOf, Shows, Decode;
    SubscriptionIsRead(u, fd, p.topic, sf);
    PublicationIsPublished(React(u, InputFor(Subscribes(fd, p.topic, sf))), p);
  }

  lemma PossibleShape(t: Server, i: Input)
    requires Possible(t, i)
    ensures Shape(i)
  {
  }

  /** Two more inputs that are possible and no IDs from a client's socket. */
  lemma {:induction false} ProbeRuns(s: Server, a: seq<Input>, x: Input, y: Input)
    requires Sound(s) && Shapes(a) && PossibleRun(s, a)
    requires var u := Serve(s, a); Possible(u, x) && !Hijacks(u, x)
    requires var v := React(Serve(s, a), x); Possible(v, y) && !Hijacks(v, y)
    ensures Continues(s, a, [x, y]) && Shapes(a + [x]) && Shapes(a + [x] + [y])
    ensures Serve(s, a + [x]) == React(Serve(s, a), x)
    ensures Serve(s, a + [x] + [y]) == React(React(Serve(s, a), x), y)
  {
    hide Hijacks, Shape, Possible, React, PossibleRun, Sound;
    PossibleShape(Serve(s, a), x);
    PossibleShape(React(Serve(s, a), x), y);
    ServeOneMore(s, a, x);
    ServeOneMore(s, a + [x], y);
    var c := a + [x, y];
    assert c == a + [x] + [y];
    forall n | |a| <= n < |c| ensures !Hijacks(Serve(s, c[..n]), c[n]) {
      if n == |a| {
        assert c[..n] == a && c[n] == x;
      } else {
        assert c[..n] == a + [x] && c[n] == y;
      }
    }
  }

  lemma {:induction false} FirstHijack(s: Server, ins: seq<Input>) returns (n: nat)
    requires Sound(s) && Shapes(ins) && PossibleRun(s, ins) && !NeverHijacked(s, ins)
    ensures n < |ins| && EndsInFirstHijack(s, ins[..n + 1])
  {
    hide Hijacks, Possible, Serve;
    n := |ins| - 1;
    PartOfRun(s, ins, n);
    if NeverHijacked(s, ins[..n]) {
      forall m | 0 <= m < n ensures !Hijacks(Serve(s, ins[..m]), ins[m]) {
        assert ins[..n][..m] == ins[..m] && ins[..n][m] == ins[m];
      }
      assert ins[..n + 1] == ins;
    } else {
      var m := FirstHijack(s, ins[..n]);
      assert ins[..n][..m + 1] == ins[..m + 1];
      n := m;
    }
  }

  lemma {:induction false} StillNeverHijacked(s: Server, ins: seq<Input>, n: nat, more: seq<Input>)
    requires Sound(s) && Shapes(ins) && n <= |ins| && NeverHijacked(s, ins) && Continues(s, ins[..n], more)
    ensures NeverHijacked(s, ins[..n] + more)
  {
    hide Hijacks, Possible, Serve;
    var all := ins[..n] + more;
    forall m | 0 <= m < |all| ensures !Hijacks(Serve(s, all[..m]), all[m]) {
      if m < n {
        assert all[..m] == ins[..m];
      }
    }
  }

  lemma {:induction false} HijackIsNoticed(s: Server, ins: seq<Input>)
    requires Consistent(s) && s.reg.clients == [] && Shapes(ins) && EndsInFirstHijack(s, ins)
    ensures !CarriesFromHere(s, ins)
  {
    var p := AnyPublication();
    NothingMore(s, ins);
    var k := HijackLeaks(s, ins);
    var fd := LifeIn(s, ins, k).sock;
    hide Consistent, Hijacks, Possible, Serve, LifeIn, Probe, NeverHijacked, PossibleRun, CarriesMore, CarriesSession;
    hide WellSent, Shape, Shapes, Continues, Sound;
    var more := if fd in Serve(s, ins).reg.active then Probe(fd, p, 1) else [];
    assert Continues(s, ins, more) && ins + [] == ins;
    SharedOrClosed(s, ins + more, k, fd);
    assert !SocketsCarrySessions(s, ins + more);
  }

  lemma {:induction false} NothingMore(s: Server, ins: seq<Input>)
    requires Sound(s) && Shapes(ins) && PossibleRun(s, ins)
    ensures Continues(s, ins, [])
  {
    assert ins + [] == ins;
  }

  /**
   Exactly when subscribers can rely on their sockets: after every part of a run, whatever follows,
   every socket carries its client's session and nothing else, if and only if the run reads no ID
   from a client's own socket.
   */
  lemma {:induction false} SocketsAreSessionsIff(s: Server, ins: seq<Input>)
    requires Consistent(s) && s.reg.clients == [] && Shapes(ins) && PossibleRun(s, ins)
    ensures (forall n :: 0 <= n <= |ins| ==> CarriesFromHere(s, ins[..n])) <==> NeverHijacked(s, ins)
  {
    hide Consistent, PossibleRun, SocketsCarrySessions, StrangersReadNothing, Shape, Serve, Hijacks, NeverHijacked;
    if NeverHijacked(s, ins) {
      forall n, more | 0 <= n <= |ins| && Continues(s, ins[..n], more)
        ensures SocketsCarrySessions(s, ins[..n] + more)
      {
        StillNeverHijacked(s, ins, n, more);
        SocketsAreSessions(s, ins[..n] + more);
      }
    } else {
      var n := FirstHijack(s, ins);
      assert EndsInFirstHijack(s, ins[..n + 1]);
      HijackIsNoticed(s, ins[..n + 1]);
    }
  }

  function AnyPublication(): (p: Publication)
    ensures WellSent(p)
  {
    Publication([], ShortRealMsg(0), [], 0)
  }

  lemma PossibleAt(s: Server, ins: seq<Input>, n: nat)
    requires Sound(s) && Shapes(ins) && PossibleRun(s, ins) && n < |ins|
    ensures Possible(Serve(s, ins[..n]), ins[n])
  {
  }

  // ---- a run on which a subscriber reads a publication twice ----

  /** The run that breaks the registry, a subscription of its first client and a publication for it. */
  function DoublingRun(p: Publication, sf: int): (ins: seq<Input>)
    requires WellSent(p) && -0x8000_0000 <= sf < 0x8000_0000
    ensures Shapes(ins)
  {
    [Connection(5), Received(5, [97, 0]), Connection(6), Received(5, [98, 0])] + Probe(5, p, sf)
  }

  /** Where no record has been sent anything, no socket has carried anything. */
  lemma {:induction false} NothingSentNothingWired(s: Server, ins: seq<Input>, fd: int)
    requires Sound(s) && Shapes(ins)
    requires forall m :: 0 <= m < |Serve(s, ins).reg.clients| ==> Serve(s, ins).reg.clients[m].sent == []
    ensures Wired(s, ins, fd) == []
  {
    if ins != [] {
      var before, i := ins[..|ins| - 1], ins[|ins| - 1];
      var t := Serve(s, before);
      var cs, cs', e := t.reg.clients, Serve(s, ins).reg.clients, EventOf(t, i);
      CallIsReal(t, i);
      hide Step, EventOf;
      forall m | 0 <= m < |cs| ensures cs[m].sent == [] && NewSends(cs[m], e) == [] {
        assert cs'[m] == Step(cs[m], e) && cs'[m].sent == [];
      }
      NothingSentNothingWired(s, before, fd);
      PutNothing(cs, e, fd);
    }
  }

  lemma OneEntryOneCopy(fd: int, id: seq<byte>, topic: seq<byte>, sf: int, frame: Frame)
    requires fd != OFFLINE
    ensures var c, sub, news := NewClient(fd, id), Broker.Subscribe(fd, topic, sf), Publish(topic, frame);
            var d := Step(c, sub);
            && NewSends(c, sub) == [] && d.sock == Step(d, news).sock == fd
            && NewSends(d, news) == [Send(fd, frame)] && On(NewSends(d, news), fd) == [frame]
  {
    var d := Step(NewClient(fd, id), Broker.Subscribe(fd, topic, sf));
    assert d.subs == [Sub(topic, sf)];
    var e := Deliver(d, topic, frame, 1);
    assert Deliver(d, topic, frame, 0) == d;
    assert e == DeliverOne(d, d.subs[0], topic, frame);
    assert e.sent == [Send(fd, frame)];
  }

  /** Two fresh records on one socket: it carries the publication once for each. */
  lemma {:induction false} BothOnce(a: seq<byte>, b: seq<byte>, fd: int, topic: seq<byte>, sf: int, frame: Frame)
    requires fd != OFFLINE
    ensures var cs := [NewClient(fd, a), NewClient(fd, b)];
            var sub, news := Broker.Subscribe(fd, topic, sf), Publish(topic, frame);
            Put(cs, sub, fd) == [] && Put(StepAll(cs, sub), news, fd) == [frame, frame]
  {
    var cs := [NewClient(fd, a), NewClient(fd, b)];
    var sub, news := Broker.Subscribe(fd, topic, sf), Publish(topic, frame);
    OneEntryOneCopy(fd, a, topic, sf, frame);
    OneEntryOneCopy(fd, b, topic, sf, frame);
    hide Step, NewSends, NewClient, On;
    PutNothing(cs, sub, fd);
    var after := StepAll(cs, sub);
    assert after == [Step(cs[0], sub), Step(cs[1], sub)];
    assert after[1..][1..] == [];
    assert Put(after, news, fd) == [frame] + (On(NewSends(after[1..][0], news), fd) + Put(after[1..][1..], news, fd));
  }

  /** Two fresh records on one socket, and one of them subscribes: it carries the frame once for each. */
  lemma {:induction false} TwoRecordsDouble(
    s: Server, a: seq<Input>, fd: int, x: seq<byte>, y: seq<byte>, p: Publication, sf: int)
    requires Sound(s) && s.reg.clients == [] && Shapes(a) && PossibleRun(s, a) && x != y
    requires var u := Serve(s, a);
             && u.reg.clients == [NewClient(fd, x), NewClient(fd, y)]
             && !u.receiveID && fd >= 0 && fd in u.reg.active && !Listening(u, fd)
    requires WellSent(p) && -0x8000_0000 <= sf < 0x8000_0000
    ensures var ins, f := a + Probe(fd, p, sf), NewsOf(p).frame;
            && Continues(s, a, Probe(fd, p, sf))
            && Online(LifeIn(s, ins, x)) && LifeIn(s, ins, x).sock == fd
            && Wired(s, ins, fd) == [f, f]
            && Frames(SessionSends(x, Calls(s, ins))) == [f]
  {
    var cs, f := Serve(s, a).reg.clients, NewsOf(p).frame;
    FreshAt(s, a, fd, x, y);
    NewsIsPublish(p);
    OneEntryOneCopy(fd, x, p.topic, sf, f);
    BothOnce(x, y, fd, p.topic, sf, f);
    hide Step, NewSends, Wired, SessionSends, Published, Put, Probe, PossibleRun, Listening, Continues, Calls, StepAll;
    hide Shapes, Sound, Serve, NewClient, NewsOf, On, LifeIn, Online, At, WellFormed, Topic, Dotted;
    ProbeAdds(s, a, x, 0, fd, p, sf);
    AtIsOnline(s, a + Probe(fd, p, sf), x, 0, fd);
    var sub := Broker.Subscribe(fd, p.topic, sf);
    NothingAndOne(NewSends(cs[0], sub), NewSends(Step(cs[0], sub), NewsOf(p)), Send(fd, f));
  }

  lemma AtIsOnline(s: Server, ins: seq<Input>, k: seq<byte>, j: nat, fd: int)
    requires Sound(s) && Shapes(ins) && At(s, ins, k, j, fd)
    ensures Online(LifeIn(s, ins, k)) && LifeIn(s, ins, k).sock == fd
  {
  }

  lemma NothingAndOne(a: seq<Send>, b: seq<Send>, x: Send)
    requires a == [] && b == [x]
    ensures Frames([] + a + b) == [x.frame]
  {
  }

  lemma {:induction false} FreshAt(s: Server, a: seq<Input>, fd: int, x: seq<byte>, y: seq<byte>)
    requires Sound(s) && s.reg.clients == [] && Shapes(a) && x != y && fd != OFFLINE
    requires Serve(s, a).reg.clients == [NewClient(fd, x), NewClient(fd, y)]
    ensures At(s, a, x, 0, fd) && Wired(s, a, fd) == [] && SessionSends(x, Calls(s, a)) == []
  {
    hide Serve, Calls;
    OwnerIsAt(s, a, 0);
    NothingSentNothingWired(s, a, fd);
    SessionIsReplayThenLive(x, Calls(s, a));
  }

  /**
   On a possible run a subscriber reads a publication twice that its client is sent once: another
   record came to its socket.
   */
  lemma {:induction false} FrameIsDoubled(p: Publication, sf: int)
    requires WellSent(p) && -0x8000_0000 <= sf < 0x8000_0000
    ensures var s, ins, k: seq<byte> := Boot(3, 4), DoublingRun(p, sf), [97];
            var f := Published(p.topic, p.content, p.ip, p.port);
            && PossibleRun(s, ins)
            && Online(LifeIn(s, ins, k)) && LifeIn(s, ins, k).sock == 5
            && Wired(s, ins, 5) == [f, f]
            && Frames(SessionSends(k, Calls(s, ins))) == [f]
  {
    var a := FirstClientIsDuplicated();
    var x, y: seq<byte> := [97], [98];
    assert x[0] != y[0] && Boot(3, 4).reg.clients == [];
    hide Boot, Serve, PossibleRun, Listening, Wired, SessionSends, Published, Probe, LifeIn, Calls, WellSent;
    TwoRecordsDouble(Boot(3, 4), a, 5, x, y, p, sf);
    assert a + Probe(5, p, sf) == DoublingRun(p, sf);
  }
}
