/** The registry of clients and sockets over server runs, and what the one receiveID flag does to it. */
module Handshake {
  import opened Bytes
  import opened Subscriptions
  import opened Broker
  import opened Wire
  import opened Dispatch

  predicate Listening(s: Server, fd: int) {
    fd == 0 || fd == s.tcp || fd == s.udp
  }

  /** Which inputs the operating system can produce in a state. */
  predicate Possible(s: Server, i: Input) {
    && Shape(i)
    && (i.Connection? ==> i.fd !in s.reg.active && !Listening(s, i.fd))
    && (i.Received? ==> i.fd in s.reg.active && !Listening(s, i.fd))
  }

  predicate DistinctSockets(cs: seq<Client>) {
    forall i, j :: 0 <= i < j < |cs| && cs[i].sock != OFFLINE ==> cs[i].sock != cs[j].sock
  }

  /** Every connected socket is open and belongs to a client connection. */
  predicate SocketsOpen(s: Server) {
    forall i :: 0 <= i < |s.reg.clients| && s.reg.clients[i].sock != OFFLINE ==>
      s.reg.clients[i].sock in s.reg.active && !Listening(s, s.reg.clients[i].sock)
  }

  predicate Consistent(s: Server)
    ensures Consistent(s) ==> Sound(s)
  {
    && Sound(s)
    && DistinctIds(s.reg.clients)
    && DistinctSockets(s.reg.clients)
    && SocketsOpen(s)
  }

  /** What one event does to a record's identity and socket. */
  lemma StepSocket(c: Client, e: Event)
    ensures Step(c, e).id == c.id
    ensures Step(c, e).sock ==
      if e.Identify? && c.id == e.id && c.sock == OFFLINE then e.fd
      else if e.Disconnect? && c.sock == e.fd then OFFLINE
      else c.sock
  {
  }

  /** IDs stay distinct on every run, whatever the flag does. */
  lemma IdsStayDistinct(s: Registry, e: Event)
    requires DistinctIds(s.clients)
    ensures DistinctIds(Handle(s, e).clients)
  {
    var cs, cs' := s.clients, Handle(s, e).clients;
    forall i, j | 0 <= i < j < |cs'| ensures cs'[i].id != cs'[j].id {
      assert cs'[i].id == cs[i].id;
    }
  }

  lemma {:induction false} IdsAlwaysDistinct(s: Server, ins: seq<Input>)
    requires Sound(s) && s.reg.clients == [] && Shapes(ins)
    ensures DistinctIds(Serve(s, ins).reg.clients)
  {
    if ins != [] {
      IdsAlwaysDistinct(s, ins[..|ins| - 1]);
      var was := Serve(s, ins[..|ins| - 1]);
      IdsStayDistinct(was.reg, EventOf(was, ins[|ins| - 1]));
    }
  }

  /** A second connection under a live ID changes no record; it is closed and forgotten. */
  lemma LiveIdIsTurnedAway(s: Registry, fd: int, id: seq<byte>)
    requires DistinctIds(s.clients) && Taken(s.clients, id)
    ensures Handle(s, Identify(fd, id)) == s.(active := s.active - {fd})
  {
    var cs := s.clients;
    var t :| 0 <= t < |cs| && cs[t].id == id && cs[t].sock != OFFLINE;
    forall i | 0 <= i < |cs| ensures Step(cs[i], Identify(fd, id)) == cs[i] {
      if i < t { assert cs[i].id != cs[t].id; }
      if t < i { assert cs[t].id != cs[i].id; }
    }
    assert StepAll(cs, Identify(fd, id)) + [] == cs;
  }

  /**
   A hang-up closes a descriptor exactly if it belongs to a client. Without one the descriptor stays in
   the set, and nothing else changes either.
   */
  lemma HangUpCloses(s: Server, fd: int)
    requires Sound(s) && Possible(s, Received(fd, []))
    ensures var r := React(s, Received(fd, [])).reg;
            && (fd in r.active <==> !Owned(s.reg.clients, fd))
            && (!Owned(s.reg.clients, fd) ==> r == s.reg)
  {
    var cs, e := s.reg.clients, Disconnect(fd);
    if !Owned(cs, fd) {
      assert forall k :: 0 <= k < |cs| ==> cs[k].sock != fd && Step(cs[k], e) == cs[k];
      assert StepAll(cs, e) + [] == cs;
    }
  }

  /** The last input closes the descriptor: a client's hang-up, or the ID of a client that is online. */
  predicate Closes(s: Server, i: Input, fd: int)
    requires Sound(s) && Shape(i)
  {
    && i.Received? && i.fd == fd
    && if i.data == [] then Owned(s.reg.clients, fd)
       else s.receiveID && Taken(s.reg.clients, CStr(BufferAfter(s, i)))
  }

  /** The descriptor set, input by input: opened by a connection, closed in these two ways and no other. */
  lemma OpenAfterIff(s: Server, i: Input, fd: int)
    requires Sound(s) && Possible(s, i)
    ensures fd in React(s, i).reg.active <==> i == Connection(fd) || (fd in s.reg.active && !Closes(s, i, fd))
  {
  }

  /** While the flag is up, data arrives on a socket that already belongs to a client. */
  predicate Hijacks(s: Server, i: Input) {
    i.Received? && i.data != [] && s.receiveID && Owned(s.reg.clients, i.fd)
  }

  lemma OtherSteps(s: Server, i: Input)
    requires Consistent(s) && Possible(s, i) && !(i.Received? && i.data != [] && s.receiveID)
    ensures Consistent(React(s, i))
  {
    var e := EventOf(s, i);
    var cs, cs' := s.reg.clients, React(s, i).reg.clients;
    assert !e.Identify?;
    assert |cs'| == |cs|;
    forall k | 0 <= k < |cs|
      ensures cs'[k].id == cs[k].id
      ensures cs'[k].sock == if e.Disconnect? && cs[k].sock == e.fd then OFFLINE else cs[k].sock
    {
      StepSocket(cs[k], e);
    }
    if e.Disconnect? && !Owned(cs, e.fd) {
      assert forall k :: 0 <= k < |cs| ==> cs[k].sock != e.fd;
    }
  }

  lemma FreshIdentification(s: Server, fd: int, id: seq<byte>, s': Server)
    requires Consistent(s) && fd >= 0 && fd in s.reg.active && !Listening(s, fd) && !Owned(s.reg.clients, fd)
    requires Sound(s') && s'.tcp == s.tcp && s'.udp == s.udp && s'.reg == Handle(s.reg, Identify(fd, id))
    ensures Consistent(s')
  {
    var cs := s.reg.clients;
    var e := Identify(fd, id);
    IdsStayDistinct(s.reg, e);
    if Taken(cs, id) {
      LiveIdIsTurnedAway(s.reg, fd, id);
      assert forall k :: 0 <= k < |cs| ==> cs[k].sock != fd;
    } else {
      var cs' := s'.reg.clients;
      assert forall k :: 0 <= k < |cs| ==> cs[k].sock != fd;
      forall k | 0 <= k < |cs|
        ensures cs'[k].sock == if cs[k].id == id && cs[k].sock == OFFLINE then fd else cs[k].sock
      {
        StepSocket(cs[k], e);
      }
      if |cs'| > |cs| {
        assert cs'[|cs|] == NewClient(fd, id);
        assert forall k :: 0 <= k < |cs| ==> cs[k].id != id;
      }
    }
  }

  lemma HijackBreaks(s: Server, i: Input)
    requires Consistent(s) && Possible(s, i) && Hijacks(s, i)
    ensures !Consistent(React(s, i))
  {
    var cs := s.reg.clients;
    var e := EventOf(s, i);
    var owner :| 0 <= owner < |cs| && cs[owner].sock == e.fd;
    var cs' := React(s, i).reg.clients;
    StepSocket(cs[owner], e);
    assert cs'[owner].sock == e.fd;
    if Taken(cs, e.id) {
      assert e.fd !in React(s, i).reg.active;
    } else if Known(cs, e.id) {
      var k :| 0 <= k < |cs| && cs[k].id == e.id;
      StepSocket(cs[k], e);
      assert cs'[k].sock == e.fd;
    } else {
      assert cs'[|cs|] == NewClient(e.fd, e.id);
    }
  }

  /**
   Every step keeps IDs and sockets distinct and sockets open, except exactly an ID read from a
   socket that already belongs to a client.
   */
  lemma StepKeepsRegistryIff(s: Server, i: Input)
    requires Consistent(s) && Possible(s, i)
    ensures Consistent(React(s, i)) <==> !Hijacks(s, i)
  {
    if Hijacks(s, i) {
      HijackBreaks(s, i);
    } else if i.Received? && i.data != [] && s.receiveID {
      FreshIdentification(s, i.fd, CStr(BufferAfter(s, i)), React(s, i));
    } else {
      OtherSteps(s, i);
    }
  }

  predicate PossibleRun(s: Server, ins: seq<Input>)
    requires Sound(s) && Shapes(ins)
  {
    forall n :: 0 <= n < |ins| ==> Possible(Serve(s, ins[..n]), ins[n])
  }

  /** The registry is consistent after every part of the run, the empty one included. */
  ghost predicate AlwaysConsistent(s: Server, ins: seq<Input>)
    requires Sound(s) && Shapes(ins)
  {
    forall n :: 0 <= n <= |ins| ==> Consistent(Serve(s, ins[..n]))
  }

  predicate NeverHijacked(s: Server, ins: seq<Input>)
    requires Sound(s) && Shapes(ins)
  {
    forall n :: 0 <= n < |ins| ==> !Hijacks(Serve(s, ins[..n]), ins[n])
  }

  lemma ServeNext(s: Server, ins: seq<Input>, n: nat)
    requires Sound(s) && Shapes(ins) && n < |ins|
    ensures Serve(s, ins[..n + 1]) == React(Serve(s, ins[..n]), ins[n])
  {
    assert ins[..n + 1][..n] == ins[..n];
  }

  lemma {:induction false} ConsistentUpTo(s: Server, ins: seq<Input>, n: nat)
    requires Consistent(s) && Shapes(ins) && PossibleRun(s, ins) && NeverHijacked(s, ins) && n <= |ins|
    ensures Consistent(Serve(s, ins[..n]))
  {
    if n > 0 {
      ConsistentUpTo(s, ins, n - 1);
      ServeNext(s, ins, n - 1);
      StepKeepsRegistryIff(Serve(s, ins[..n - 1]), ins[n - 1]);
    }
  }

  /**
   The registry over whole runs: of everything the operating system can deliver, in whatever order,
   exactly an ID read from a client's own socket ever breaks it.
   */
  lemma {:induction false} RunKeepsRegistryIff(s: Server, ins: seq<Input>)
    requires Consistent(s) && Shapes(ins) && PossibleRun(s, ins)
    ensures AlwaysConsistent(s, ins) <==> NeverHijacked(s, ins)
  {
    hide Consistent, Hijacks, Serve, Possible;
    if NeverHijacked(s, ins) {
      forall n | 0 <= n <= |ins| ensures Consistent(Serve(s, ins[..n])) {
        ConsistentUpTo(s, ins, n);
      }
    }
    if AlwaysConsistent(s, ins) {
      forall n | 0 <= n < |ins| ensures !Hijacks(Serve(s, ins[..n]), ins[n]) {
        ServeNext(s, ins, n);
        StepKeepsRegistryIff(Serve(s, ins[..n]), ins[n]);
      }
    }
  }

  /** So a request or a hang-up changes at most one record. */
  lemma {:induction false} OneRecordChanges(s: Server, e: Event, i: nat, j: nat)
    requires Consistent(s) && (e.Subscribe? || e.Unsubscribe? || e.Disconnect?) && e.fd >= 0
    requires i < |s.reg.clients| && j < |s.reg.clients|
    ensures Step(s.reg.clients[i], e) != s.reg.clients[i] && Step(s.reg.clients[j], e) != s.reg.clients[j] ==> i == j
  {
    var cs := s.reg.clients;
    if cs[i].sock == e.fd && i < j {
      assert cs[j].sock != e.fd;
    } else if cs[j].sock == e.fd && j < i {
      assert cs[i].sock != e.fd;
    }
  }

  // ---- the protocol the flag stands for ----

  /** Per connection: the first data is the ID, everything after it a request. */
  function Intended(s: Server, i: Input): Event
    requires Sound(s) && Shape(i)
  {
    if i.Received? && i.data != [] then
      if Owned(s.reg.clients, i.fd) then DecodeRequest(i.fd, BufferAfter(s, i))
      else Identify(i.fd, CStr(BufferAfter(s, i)))
    else EventOf(s, i)
  }

  /** Identification always shows: in the table or in the descriptor set. */
  lemma IdentificationShows(s: Registry, fd: int, id: seq<byte>, e: Event)
    requires fd in s.active && fd != OFFLINE
    requires e.Subscribe? || e.Unsubscribe? || e.Ignored?
    ensures Handle(s, Identify(fd, id)) != Handle(s, e)
  {
    var cs := s.clients;
    if Taken(cs, id) {
      assert fd !in Handle(s, Identify(fd, id)).active;
    } else if Known(cs, id) {
      var k :| 0 <= k < |cs| && cs[k].id == id;
      StepSocket(cs[k], Identify(fd, id));
      StepSocket(cs[k], e);
      assert Handle(s, Identify(fd, id)).clients[k].sock == fd;
      assert Handle(s, e).clients[k].sock == OFFLINE;
    } else {
      assert |Handle(s, Identify(fd, id)).clients| == |cs| + 1;
    }
  }

  /**
   The global flag decides as the per-connection protocol would exactly when it is up for data from
   a connection without a client and down for data from one with a client.
   */
  lemma FlagIsRightIff(s: Server, i: Input)
    requires Consistent(s) && Possible(s, i) && i.Received? && i.data != []
    ensures Handle(s.reg, EventOf(s, i)) == Handle(s.reg, Intended(s, i))
            <==> (s.receiveID <==> !Owned(s.reg.clients, i.fd))
  {
    var buf := BufferAfter(s, i);
    IdentificationShows(s.reg, i.fd, CStr(buf), DecodeRequest(i.fd, buf));
  }

  function Follow(s: Server, i: Input): (r: Server)
    requires Sound(s) && Shape(i)
    ensures Sound(r)
  {
    React(s, i).(reg := Handle(s.reg, Intended(s, i)))
  }

  /** A run of the per-connection protocol, which never looks at the flag. */
  function FollowAll(s: Server, ins: seq<Input>): (r: Server)
    requires Sound(s) && Shapes(ins)
    ensures Sound(r)
  {
    if ins == [] then s else Follow(FollowAll(s, ins[..|ins| - 1]), ins[|ins| - 1])
  }

  /** While a connection still owes its ID, none is accepted and no other connection speaks. */
  predicate Orderly(s: Server, i: Input) {
    && (i.Connection? ==> !s.receiveID)
    && !Hijacks(s, i)
  }

  /** An open connection without a client. */
  predicate Stranger(s: Server, fd: nat) {
    fd in s.reg.active && !Listening(s, fd) && !Owned(s.reg.clients, fd)
  }

  /** There is none while the flag is down, and never more than one. */
  ghost predicate AtMostOneStranger(s: Server) {
    && (!s.receiveID ==> forall fd: nat :: !Stranger(s, fd))
    && (forall fd: nat, fd': nat :: Stranger(s, fd) && Stranger(s, fd') ==> fd == fd')
  }

  predicate OrderlyRun(s: Server, ins: seq<Input>)
    requires Sound(s) && Shapes(ins)
  {
    forall n :: 0 <= n < |ins| ==>
      var t := Serve(s, ins[..n]); Possible(t, ins[n]) && Orderly(t, ins[n])
  }

  lemma StrangersAfter(s: Server, i: Input, fd: nat)
    requires Consistent(s) && Possible(s, i) && Orderly(s, i) && AtMostOneStranger(s)
    requires Stranger(React(s, i), fd)
    ensures if i.Connection? then fd == i.fd || Stranger(s, fd) else Stranger(s, fd)
    ensures i.Received? && i.data != [] && s.receiveID ==> fd != i.fd
  {
    var e := EventOf(s, i);
    var cs, cs' := s.reg.clients, React(s, i).reg.clients;
    if k :| 0 <= k < |cs| && cs[k].sock == fd {
      StepSocket(cs[k], e);
      assert cs'[k].sock == OFFLINE;
    }
    if i.Received? && i.data != [] && s.receiveID {
      IdentifiedIsNoStranger(s, i);
    }
  }

  lemma IdentifiedIsNoStranger(s: Server, i: Input)
    requires Sound(s) && Shape(i) && i.Received? && i.data != [] && s.receiveID
    ensures !Stranger(React(s, i), i.fd)
  {
    var e := EventOf(s, i);
    var cs, cs' := s.reg.clients, React(s, i).reg.clients;
    if Taken(cs, e.id) {
      assert i.fd !in React(s, i).reg.active;
    } else if Known(cs, e.id) {
      var k :| 0 <= k < |cs| && cs[k].id == e.id;
      StepSocket(cs[k], e);
      assert cs'[k].sock == i.fd;
    } else {
      assert cs'[|cs|] == NewClient(e.fd, e.id);
    }
  }

  lemma OrderlyStep(s: Server, i: Input)
    requires Consistent(s) && Possible(s, i) && Orderly(s, i) && AtMostOneStranger(s)
    ensures Consistent(React(s, i)) && AtMostOneStranger(React(s, i))
    ensures Follow(s, i) == React(s, i)
  {
    StepKeepsRegistryIff(s, i);
    if i.Received? && i.data != [] {
      FlagIsRightIff(s, i);
      assert Owned(s.reg.clients, i.fd) || Stranger(s, i.fd);
    }
    var s' := React(s, i);
    forall fd: nat | Stranger(s', fd)
      ensures if i.Connection? then fd == i.fd else Stranger(s, fd)
      ensures i.Received? && i.data != [] && s.receiveID ==> fd != i.fd
    {
      StrangersAfter(s, i, fd);
    }
  }

  /**
   On every orderly run the server keeps the registry consistent and does what the per-connection
   protocol does.
   */
  lemma {:induction false} OrderlyRunsFollowTheProtocol(s: Server, ins: seq<Input>)
    requires Consistent(s) && AtMostOneStranger(s) && Shapes(ins) && OrderlyRun(s, ins)
    ensures Serve(s, ins) == FollowAll(s, ins)
    ensures Consistent(Serve(s, ins)) && AtMostOneStranger(Serve(s, ins))
  {
    if ins != [] {
      var before := ins[..|ins| - 1];
      forall n | 0 <= n < |before|
        ensures var t := Serve(s, before[..n]); Possible(t, before[n]) && Orderly(t, before[n])
      {
        assert before[..n] == ins[..n];
      }
      OrderlyRunsFollowTheProtocol(s, before);
      OrderlyStep(Serve(s, before), ins[|ins| - 1]);
    }
  }

  /** A server that has just started is such a state. */
  lemma {:induction false} BootIsOrderly(tcp: int, udp: int)
    ensures Consistent(Boot(tcp, udp)) && AtMostOneStranger(Boot(tcp, udp)) && Fresh(Boot(tcp, udp))
    ensures forall fd :: fd in Boot(tcp, udp).reg.active <==> fd == 0 || fd == tcp || fd == udp
  {
    var s := Boot(tcp, udp);
    assert forall fd: nat :: fd in s.reg.active ==> Listening(s, fd);
  }

  // ---- a run that breaks the registry ----

  lemma {:induction false} ServeOneMore(s: Server, ins: seq<Input>, i: Input)
    requires Sound(s) && Shapes(ins) && Shape(i) && PossibleRun(s, ins) && Possible(Serve(s, ins), i)
    ensures Shapes(ins + [i]) && PossibleRun(s, ins + [i])
    ensures Serve(s, ins + [i]) == React(Serve(s, ins), i)
  {
    assert (ins + [i])[..|ins|] == ins;
    forall n | 0 <= n < |ins + [i]| ensures Possible(Serve(s, (ins + [i])[..n]), (ins + [i])[n]) {
      if n < |ins| {
        assert (ins + [i])[..n] == ins[..n];
      }
    }
  }

  lemma AcceptOnly(s: Server, fd: int)
    requires Sound(s) && fd >= 0
    ensures React(s, Connection(fd)) ==
            s.(reg := s.reg.(active := s.reg.active + {fd},
                             fdClients := if fd > s.reg.fdClients then fd else s.reg.fdClients),
               receiveID := true)
  {
    var cs := s.reg.clients;
    assert StepAll(cs, Accept(fd)) + [] == cs;
  }

  /** An ID nobody has, from whatever socket, while the flag is up: one more record. */
  lemma UnknownIdIsRegistered(s: Server, fd: int, id: seq<byte>)
    requires Sound(s) && fd >= 0 && s.receiveID
    requires |id| < ID_LEN && 0 !in id && !Known(s.reg.clients, id)
    ensures Shape(Received(fd, id + [0]))
    ensures var s' := React(s, Received(fd, id + [0]));
            && s'.reg == s.reg.(clients := s.reg.clients + [NewClient(fd, id)])
            && !s'.receiveID && s'.tcp == s.tcp && s'.udp == s.udp
  {
    var cs, e := s.reg.clients, Identify(fd, id);
    TerminatedReadsBack(id, s.buffer[|id| + 1..]);
    assert Overlay(s.buffer, id + [0]) == id + [0] + s.buffer[|id| + 1..];
    assert EventOf(s, Received(fd, id + [0])) == e;
    assert forall k :: 0 <= k < |cs| ==> cs[k].id != id && Step(cs[k], e) == cs[k];
    assert StepAll(cs, e) == cs;
  }

  /** A client connects and identifies itself while the flag is down. */
  lemma {:induction false} Joins(s: Server, ins: seq<Input>, fd: int, from: int, id: seq<byte>)
    requires Sound(s) && Shapes(ins) && PossibleRun(s, ins) && |id| < ID_LEN && 0 !in id
    requires var t := Serve(s, ins);
             && fd >= 0 && from >= 0 && fd !in t.reg.active && !Listening(t, fd) && !Listening(t, from)
             && from in t.reg.active + {fd} && !Known(t.reg.clients, id)
    ensures var all, t := ins + [Connection(fd), Received(from, id + [0])], Serve(s, ins);
            && Shapes(all) && PossibleRun(s, all)
            && var u := Serve(s, all);
               && u.reg.clients == t.reg.clients + [NewClient(from, id)] && u.reg.active == t.reg.active + {fd}
               && !u.receiveID && u.tcp == t.tcp && u.udp == t.udp
  {
    hide EventOf, BufferAfter, Handle, Known, NewClient;
    var a, last := ins + [Connection(fd)], Received(from, id + [0]);
    assert Possible(Serve(s, ins), Connection(fd));
    ServeOneMore(s, ins, Connection(fd));
    AcceptOnly(Serve(s, ins), fd);
    UnknownIdIsRegistered(Serve(s, a), from, id);
    ServeOneMore(s, a, last);
    assert a + [last] == ins + [Connection(fd), last];
  }

  /**
   A run that breaks the registry: one client connects and identifies, a second one connects, and
   the first one sends data before the second one's ID. Two records then share the first one's socket.
   */
  lemma {:induction false} FirstClientIsDuplicated() returns (ins: seq<Input>)
    ensures ins == [Connection(5), Received(5, [97, 0]), Connection(6), Received(5, [98, 0])]
    ensures Shapes(ins) && PossibleRun(Boot(3, 4), ins)
    ensures var t := Serve(Boot(3, 4), ins);
            && t.reg.clients == [NewClient(5, [97]), NewClient(5, [98])]
            && !t.receiveID && 5 in t.reg.active && !Listening(t, 5)
  {
    var a := [Connection(5), Received(5, [97, 0])];
    ins := a + [Connection(6), Received(5, [98, 0])];
    FirstClientJoins(a);
    assert Boot(3, 4).tcp == 3;
    hide Boot, Serve, PossibleRun, Shape;
    assert [98] + [0] == [98, 0];
    SecondJoins(Boot(3, 4), a, 5, 6, [97], [98]);
  }

  /** The only client so far sends data after another one has connected. */
  lemma {:induction false} SecondJoins(s: Server, a: seq<Input>, fd: int, fd': int, x: seq<byte>, y: seq<byte>)
    requires Sound(s) && Shapes(a) && PossibleRun(s, a) && |y| < ID_LEN && 0 !in y && x != y
    requires var t := Serve(s, a);
             && t.reg.clients == [NewClient(fd, x)] && fd >= 0 && fd' >= 0 && fd in t.reg.active
             && fd' !in t.reg.active && !Listening(t, fd) && !Listening(t, fd')
    ensures var all := a + [Connection(fd'), Received(fd, y + [0])];
            && Shapes(all) && PossibleRun(s, all)
            && var u := Serve(s, all);
               && u.reg.clients == [NewClient(fd, x), NewClient(fd, y)]
               && !u.receiveID && fd in u.reg.active && !Listening(u, fd)
  {
    hide Serve, PossibleRun, Shape, NewClient, Known;
    KnownOne(fd, x, y);
    Joins(s, a, fd', fd, y);
  }

  lemma {:induction false} FirstClientJoins(ins: seq<Input>)
    requires ins == [Connection(5), Received(5, [97, 0])]
    ensures Shapes(ins) && PossibleRun(Boot(3, 4), ins)
    ensures var t := Serve(Boot(3, 4), ins);
            && t.reg.clients == [NewClient(5, [97])] && t.reg.active == {0, 3, 4, 5}
            && !t.receiveID && t.tcp == 3 && t.udp == 4
  {
    var s := Boot(3, 4);
    hide Possible, React, NewClient, Shape;
    Joins(s, [], 5, 5, [97]);
    assert [97] + [0] == [97, 0] && [] + [Connection(5), Received(5, [97] + [0])] == ins;
    assert s.reg.active + {5} == {0, 3, 4, 5} && s.reg.clients + [NewClient(5, [97])] == [NewClient(5, [97])];
  }

  lemma KnownOne(fd: int, id: seq<byte>, other: seq<byte>)
    requires id != other
    ensures !Known([NewClient(fd, id)], other)
  {
  }
}
