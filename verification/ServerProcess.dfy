/**
 The server process: its globals, the handlers of action.c over them, and the descriptor scan of
 server.c. Each method is proved against the value model of Dispatch.
 */
module ServerProcesses {
  import opened Bytes
  import opened Broker
  import opened Wire
  import opened Dispatch
  import opened Handshake
  import opened ClientTables
  import opened Rounds

  class ServerProcess {
    const fdTCP: int
    const fdUDP: int
    const sendBuffer: array<byte>
    const clients: ClientTable
    var fdIN: set<int>
    var fdClients: int
    var receiveID: bool
    ghost var Model: Server
    ghost var Repr: set<object>

    ghost predicate Valid()
      reads this, Repr
      ensures Valid() ==> this in Repr && Sound(Model) && Model.tcp == fdTCP && Model.udp == fdUDP
      ensures Valid() ==> Model.reg.fdClients == fdClients
    {
      && this in Repr && sendBuffer in Repr && clients in Repr
      && clients.Repr <= Repr && this !in clients.Repr && sendBuffer !in clients.Repr
      && clients.Valid()
      && sendBuffer.Length == BUFFER_SERVER_LEN
      && Model == Server(fdTCP, fdUDP, Registry(clients.Clients, fdIN, fdClients), receiveID, sendBuffer[..])
    }

    constructor (tcp: int, udp: int)
      ensures Valid() && fresh(Repr)
      ensures Model == Boot(tcp, udp)
    {
      hide ClientTable.Valid;
      var buffer := new byte[BUFFER_SERVER_LEN](_ => 0);
      var table := new ClientTable();
      fdTCP, fdUDP, sendBuffer, clients := tcp, udp, buffer, table;
      fdIN, fdClients, receiveID := {0, tcp, udp}, if tcp > udp then tcp else udp, false;
      Model := Boot(tcp, udp);
      Repr := {this, buffer, table} + table.Repr;
      assert buffer[..] == Zeros(BUFFER_SERVER_LEN);
    }

    /** The ghost state follows what the fields say now. */
    ghost method Commit()
      requires this in Repr && sendBuffer in Repr && clients in Repr
      requires this !in clients.Repr && sendBuffer !in clients.Repr && clients.Valid()
      requires sendBuffer.Length == BUFFER_SERVER_LEN
      modifies `Model, `Repr
      ensures Valid() && Repr == old(Repr) + clients.Repr
      ensures Model == Server(fdTCP, fdUDP, Registry(clients.Clients, fdIN, fdClients), receiveID, sendBuffer[..])
    {
      hide ClientTable.Valid;
      Repr := Repr + clients.Repr;
      Model := Server(fdTCP, fdUDP, Registry(clients.Clients, fdIN, fdClients), receiveID, sendBuffer[..]);
    }

    /** select returned: the receive buffer is cleared. */
    method ClearBuffer()
      requires Valid()
      modifies Repr
      ensures Valid() && Repr == old(Repr)
      ensures Model == React(old(Model), Wake)
    {
      hide ClientTable.Valid;
      Clear(sendBuffer, sendBuffer.Length);
      assert sendBuffer[..] == Zeros(BUFFER_SERVER_LEN);
      IgnoredChangesNothing(Model.reg);
      Commit();
    }

    method AcceptNewConnection(fd: int)
      requires Valid() && fd >= 0
      modifies Repr
      ensures Valid() && Repr == old(Repr)
      ensures Model == React(old(Model), Connection(fd))
    {
      hide ClientTable.Valid;
      AcceptOnly(Model, fd);
      receiveID := true;
      fdIN := fdIN + {fd};
      if fd > fdClients {
        fdClients := fd;
      }
      Commit();
    }

    /** recvfrom into a cleared buffer. */
    method FillBuffer(data: seq<byte>)
      requires Valid() && |data| <= BUFFER_SERVER_LEN
      modifies sendBuffer
      ensures sendBuffer[..] == Field(data, BUFFER_SERVER_LEN)
    {
      Clear(sendBuffer, BUFFER_SERVER_LEN);
      Memcpy(sendBuffer, 0, data);
    }

    method ReceiveUdpMessage(data: seq<byte>, ip: seq<byte>, port: nat)
      requires Valid() && Shape(Arrived(data, ip, port))
      modifies Repr
      ensures Valid() && fresh(Repr - old(Repr))
      ensures Model == React(old(Model), Arrived(data, ip, port))
    {
      hide ClientTable.Valid;
      FillBuffer(data);
      ghost var buf := sendBuffer[..];
      var topic := CStr(sendBuffer[..TOPIC_LEN]);
      assert sendBuffer[..TOPIC_LEN] == buf[..TOPIC_LEN];
      var format := new byte[FRAME_LEN];
      clients.Publish(topic, format, sendBuffer, ip, port);
      assert sendBuffer[..] == buf;
      assert clients.Clients + [] == clients.Clients;
      Commit();
    }

    /** The ID read into the buffer; the flag goes down afterwards. */
    method HandleIdClient(fd: int)
      requires Valid()
      modifies Repr
      ensures Valid() && fresh(Repr - old(Repr))
      ensures Model == old(Model).(reg := Handle(old(Model.reg), Identify(fd, CStr(old(Model.buffer)))),
                                   receiveID := false)
    {
      hide ClientTable.Valid;
      var id := CStr(sendBuffer[..]);
      var taken := clients.Identify(fd, id);
      if taken {
        fdIN := fdIN - {fd};
      }
      receiveID := false;
      Commit();
    }

    method DisconnectClient(fd: int)
      requires Valid()
      modifies Repr
      ensures Valid() && fresh(Repr - old(Repr))
      ensures Model == old(Model).(reg := Handle(old(Model.reg), Disconnect(fd)))
    {
      hide ClientTable.Valid;
      var found := clients.Disconnect(fd);
      if found {
        fdIN := fdIN - {fd};
      }
      assert clients.Clients + [] == clients.Clients;
      Commit();
    }

    method HandleRequest(fd: int)
      requires Valid()
      modifies Repr
      ensures Valid() && fresh(Repr - old(Repr))
      ensures Model == old(Model).(reg := Handle(old(Model.reg), DecodeRequest(fd, old(Model.buffer))))
    {
      hide ClientTable.Valid;
      var action := sendBuffer[0];
      ghost var e := DecodeRequest(fd, sendBuffer[..]);
      assert sendBuffer[..][1..TOPIC_LEN + 2] == sendBuffer[1..TOPIC_LEN + 2];
      assert sendBuffer[..][TOPIC_LEN + 2..TOPIC_LEN + 6] == sendBuffer[TOPIC_LEN + 2..TOPIC_LEN + 6];
      var topic := CStr(sendBuffer[1..TOPIC_LEN + 2]);
      if action == LETTER_S {
        var sf := FromHostInt(sendBuffer[TOPIC_LEN + 2..TOPIC_LEN + 6]);
        clients.Subscribe(topic, sf, fd);
        assert clients.Clients + [] == clients.Clients;
      } else if action == LETTER_U {
        clients.Unsubscribe(topic, fd);
        assert clients.Clients + [] == clients.Clients;
      } else {
        IgnoredChangesNothing(Model.reg);
      }
      Commit();
    }

    /** recv on a client descriptor, and what the scan does with the result. */
    method HandleClient(fd: int, data: seq<byte>)
      requires Valid() && Shape(Received(fd, data))
      modifies Repr
      ensures Valid() && fresh(Repr - old(Repr))
      ensures Model == React(old(Model), Received(fd, data))
    {
      hide ClientTable.Valid;
      ghost var was := sendBuffer[..];
      Memcpy(sendBuffer, 0, data);
      assert sendBuffer[..] == Overlay(was, data);
      Commit();
      if data == [] {
        DisconnectClient(fd);
      } else if receiveID {
        HandleIdClient(fd);
      } else {
        HandleRequest(fd);
      }
    }

    /** One ready descriptor: which handler it goes to. */
    method Dispatch(fd: int, input: Input)
      requires Valid() && Shape(input) && fd != 0 && fdTCP != fdUDP
      requires if fd == fdTCP then input.Connection?
               else if fd == fdUDP then input.Arrived? else input.Received? && input.fd == fd
      modifies Repr
      ensures Valid() && fresh(Repr - old(Repr))
      ensures Model == React(old(Model), input)
    {
      hide ClientTable.Valid;
      if fd == fdTCP {
        AcceptNewConnection(input.fd);
      } else if fd == fdUDP {
        ReceiveUdpMessage(input.data, input.ip, input.port);
      } else {
        HandleClient(fd, input.data);
      }
    }

    /** The scan at descriptor `fd`, in a round that began in state `s`. */
    method ScanOne(fd: nat, r: Round, ghost s: Server)
      requires Valid() && Sound(s) && Proper(s, r) && s.tcp == fdTCP && s.udp == fdUDP
      requires Model == Serve(s, Script(r, fd))
      modifies Repr
      ensures Valid() && fresh(Repr - old(Repr))
      ensures Model == Serve(s, Script(r, fd + 1))
      ensures fdClients >= old(fdClients) && (fd != fdTCP ==> fdClients == old(fdClients))
    {
      hide ServerProcess.Valid;
      ServeOneMoreDescriptor(s, r, fd);
      if fd in r.ready {
        Dispatch(fd, r.inputs[fd]);
      }
    }

    /** One turn of the select loop: clear the buffer, then scan the descriptors up to fdClients. */
    method ServeRound(r: Round)
      requires Valid() && Proper(Model, r) && Bounded(Model.reg) && Model.reg.fdClients >= 0
      modifies Repr
      ensures Valid() && fresh(Repr - old(Repr))
      ensures Model == AfterRound(old(Model), r)
    {
      hide *;
      ghost var s := Model;
      ClearBuffer();
      RoundStarts(s, r);
      var fd := 0;
      while fd <= fdClients
        invariant Valid() && fresh(Repr - old(Repr))
        invariant 0 <= fd && s.reg.fdClients <= fdClients
        invariant Model == Serve(s, Script(r, fd))
        invariant fd <= fdTCP ==> fdClients == s.reg.fdClients
        decreases fd <= fdTCP, fdClients - fd
      {
        ScanOne(fd, r, s);
        fd := fd + 1;
      }
      RoundEnds(s, r, fd);
    }

    /** The select loop, for as many rounds as there are. */
    method ServeAll(rs: seq<Round>)
      requires Valid() && AllSupplied(rs) && ProperRun(Model, rs)
      requires Bounded(Model.reg) && Model.reg.fdClients >= 0
      modifies Repr
      ensures Valid() && fresh(Repr - old(Repr))
      ensures Model == AfterRounds(old(Model), rs)
    {
      hide ServerProcess.Valid, Proper, Bounded;
      ghost var s := Model;
      var n := 0;
      while n < |rs|
        invariant Valid() && fresh(Repr - old(Repr))
        invariant n <= |rs| && Model == AfterRounds(s, rs[..n])
      {
        OneMoreRound(s, rs, n);
        RunStaysBounded(s, rs[..n]);
        ServeRound(rs[n]);
        n := n + 1;
      }
      assert rs[..n] == rs;
    }

    /** The server's main function: start with descriptors `tcp` and `udp`, then serve. */
    static method RunServer(tcp: int, udp: int, rs: seq<Round>) returns (p: ServerProcess)
      requires tcp >= 0 && udp >= 0 && AllSupplied(rs) && ProperRun(Boot(tcp, udp), rs)
      ensures fresh(p) && p.Valid()
      ensures p.Model == AfterRounds(Boot(tcp, udp), rs)
    {
      hide ServerProcess.Valid, Proper, Bounded;
      p := new ServerProcess(tcp, udp);
      BootIsBounded(tcp, udp);
      p.ServeAll(rs);
    }
  }
}
