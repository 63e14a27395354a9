/** The server's table of client records and the loops of action.c over it. */
module ClientTables {
  import opened Bytes
  import opened Seqs
  import opened Subscriptions
  import opened Broker
  import opened Wire
  import opened Buffers
  import opened ClientRecords

  /** No two records share memory. */
  ghost predicate Apart(cs: seq<ClientRecord>)
    reads cs
  {
    forall i, j :: 0 <= i < j < |cs| ==> cs[i].Repr !! cs[j].Repr
  }

  lemma ApartOneMore(cs: seq<ClientRecord>, c: ClientRecord, owned: set<object>)
    requires Apart(cs) && owned !! c.Repr
    requires forall i :: 0 <= i < |cs| ==> cs[i].Repr <= owned
    ensures Apart(cs + [c])
  {
  }

  lemma DistinctOneMore(cs: seq<Client>, c: Client)
    requires DistinctIds(cs) && !Known(cs, c.id)
    ensures DistinctIds(cs + [c])
  {
  }

  class ClientTable {
    const records: Buffer<ClientRecord>
    ghost var Clients: seq<Client>
    ghost var Repr: set<object>

    ghost predicate Valid()
      reads this, Repr
      ensures Valid() ==> this in Repr
    {
      && this in Repr && records in Repr && records.data in Repr
      && records.Valid() && records.cap >= 2
      && |Clients| == |records.Contents| && DistinctIds(Clients)
      && (forall i :: 0 <= i < |Clients| ==> Entry(records.Contents[i], Clients[i]))
      && Apart(records.Contents)
    }

    /** `c` holds record `m` in memory apart from the table's own. */
    ghost predicate Entry(c: ClientRecord, m: Client)
      requires records in Repr
      reads this, Repr
    {
      && c in Repr && c.Repr <= Repr
      && {this, records, records.data} !! c.Repr
      && c.Valid() && c.Model == m
    }

    constructor ()
      ensures Valid() && fresh(Repr) && Clients == []
    {
      hide ClientRecord.Valid, Buffer.Valid;
      var b := new Buffer<ClientRecord>(40);  // sizeof(client)
      records, Clients := b, [];
      Repr := {this, b, b.data};
    }

    /** A change inside one record's memory leaves the table and the other records alone. */
    twostate lemma OthersKeep(i: nat)
      requires old(Valid()) && i < old(|Clients|)
      requires forall o :: o in old(Repr) && o !in old(records.Contents[i].Repr) ==> unchanged(o)
      requires fresh(records.Contents[i].Repr - old(records.Contents[i].Repr))
      ensures unchanged(this) && unchanged(records) && records.Valid()
      ensures forall k :: 0 <= k < |Clients| && k != i ==> Entry(records.Contents[k], Clients[k])
      ensures Apart(records.Contents)
    {
      hide ClientRecord.Valid, Buffer.Valid;
      assert old(Entry(records.Contents[i], Clients[i]));
      forall k | 0 <= k < |Clients| && k != i
        ensures Entry(records.Contents[k], Clients[k]) && records.Contents[k].Repr !! records.Contents[i].Repr
        ensures records.Contents[k].Repr == old(records.Contents[k].Repr)
      {
        assert old(Entry(records.Contents[k], Clients[k]));
        assert old(records.Contents[k].Repr !! records.Contents[i].Repr);
      }
    }

    /** Take over record `i`'s new abstract value. */
    ghost method Adopt(i: nat)
      requires i < |Clients| == |records.Contents|
      requires this in Repr && records in Repr && records.data in Repr && records.Valid() && records.cap >= 2
      requires forall k :: 0 <= k < |Clients| && k != i ==> Entry(records.Contents[k], Clients[k])
      requires Apart(records.Contents)
      requires {this, records, records.data} !! records.Contents[i].Repr && records.Contents[i].Valid()
      requires DistinctIds(Clients) && records.Contents[i].Model.id == Clients[i].id
      modifies this
      ensures Valid() && Repr == old(Repr) + records.Contents[i].Repr
      ensures Clients == old(Clients)[i := records.Contents[i].Model]
    {
      hide ClientRecord.Valid, Buffer.Valid;
      Repr := Repr + records.Contents[i].Repr;
      Clients := Clients[i := records.Contents[i].Model];
    }

    method SubscribeAt(i: nat, topic: seq<byte>, sf: int, fd: int)
      requires Valid() && i < |Clients|
      modifies Repr
      ensures Valid() && fresh(Repr - old(Repr)) && records.Contents == old(records.Contents)
      ensures Clients == old(Clients)[i := Step(old(Clients[i]), Broker.Subscribe(fd, topic, sf))]
    {
      hide ClientRecord.Valid, Buffer.Valid;
      var p := records.GetPos(i);
      var c := p.value;
      assert Entry(c, Clients[i]);
      if c.sock == fd {
        c.Subscribe(topic, sf);
        OthersKeep(i);
        Adopt(i);
      }
    }

    /** subscribe: a new entry in front, for every record with this socket. */
    method Subscribe(topic: seq<byte>, sf: int, fd: int)
      requires Valid()
      modifies Repr
      ensures Valid() && fresh(Repr - old(Repr))
      ensures Clients == StepAll(old(Clients), Broker.Subscribe(fd, topic, sf))
    {
      hide ClientRecord.Valid, Buffer.Valid;
      ghost var was, e := Clients, Broker.Subscribe(fd, topic, sf);
      var i := 0;
      while i < records.len
        invariant Valid() && fresh(Repr - old(Repr))
        invariant i <= |Clients| && SteppedTo(was, e, i)
        decreases |Clients| - i
      {
        SubscribeAt(i, topic, sf, fd);
        i := i + 1;
      }
      AllStepped(was, Clients, e);
    }

    method UnsubscribeAt(i: nat, topic: seq<byte>, fd: int)
      requires Valid() && i < |Clients|
      modifies Repr
      ensures Valid() && Repr == old(Repr) && records.Contents == old(records.Contents)
      ensures Clients == old(Clients)[i := Step(old(Clients[i]), Broker.Unsubscribe(fd, topic))]
    {
      hide ClientRecord.Valid, Buffer.Valid;
      var p := records.GetPos(i);
      var c := p.value;
      assert Entry(c, Clients[i]);
      if c.sock == fd {
        c.Unsubscribe(topic);
        OthersKeep(i);
        Adopt(i);
      }
    }

    /** unsubscribe: the delete loop, for every record with this socket. */
    method Unsubscribe(topic: seq<byte>, fd: int)
      requires Valid()
      modifies Repr
      ensures Valid() && Repr == old(Repr)
      ensures Clients == StepAll(old(Clients), Broker.Unsubscribe(fd, topic))
    {
      hide ClientRecord.Valid, Buffer.Valid;
      ghost var was, e := Clients, Broker.Unsubscribe(fd, topic);
      var i := 0;
      while i < records.len
        invariant Valid() && Repr == old(Repr)
        invariant i <= |Clients| && SteppedTo(was, e, i)
        decreases |Clients| - i
      {
        UnsubscribeAt(i, topic, fd);
        i := i + 1;
      }
      AllStepped(was, Clients, e);
    }

    method PublishAt(i: nat, topic: seq<byte>, format: array<byte>, buffer: array<byte>,
                     ip: seq<byte>, port: nat, ghost e: Event)
      requires Valid() && i < |Clients|
      requires format !in Repr && buffer !in Repr && format != buffer
      requires format.Length == FRAME_LEN && buffer.Length == BUFFER_SERVER_LEN
      requires Dotted(ip) && port < U16 && e == Broker.Publish(topic, FrameOf(buffer[..], ip, port))
      modifies Repr, format
      ensures Valid() && fresh(Repr - old(Repr)) && records.Contents == old(records.Contents)
      ensures Clients == old(Clients)[i := Step(old(Clients[i]), e)]
    {
      hide ClientRecord.Valid, Buffer.Valid;
      var p := records.GetPos(i);
      var c := p.value;
      assert Entry(c, Clients[i]);
      c.Publish(topic, format, buffer, ip, port);
      OthersKeep(i);
      Adopt(i);
    }

    /** receive_udp_message's loop over all clients, with one shared format buffer. */
    method Publish(topic: seq<byte>, format: array<byte>, buffer: array<byte>, ip: seq<byte>, port: nat)
      requires Valid() && format !in Repr && buffer !in Repr && format != buffer
      requires format.Length == FRAME_LEN && buffer.Length == BUFFER_SERVER_LEN
      requires Dotted(ip) && port < U16
      modifies Repr, format
      ensures Valid() && fresh(Repr - old(Repr))
      ensures Clients == StepAll(old(Clients), Broker.Publish(topic, FrameOf(buffer[..], ip, port)))
    {
      hide ClientRecord.Valid, Buffer.Valid;
      ghost var was, e := Clients, Broker.Publish(topic, FrameOf(buffer[..], ip, port));
      var i := 0;
      while i < records.len
        invariant Valid() && fresh(Repr - old(Repr)) && format !in Repr && buffer !in Repr
        invariant unchanged(buffer)
        invariant i <= |Clients| && SteppedTo(was, e, i)
        decreases |Clients| - i
      {
        PublishAt(i, topic, format, buffer, ip, port, e);
        i := i + 1;
      }
      AllStepped(was, Clients, e);
    }

    method DisconnectAt(i: nat, fd: int) returns (found: bool)
      requires Valid() && i < |Clients|
      modifies Repr
      ensures Valid() && Repr == old(Repr) && records.Contents == old(records.Contents)
      ensures found <==> old(Clients[i]).sock == fd
      ensures Clients == old(Clients)[i := Step(old(Clients[i]), Broker.Disconnect(fd))]
    {
      hide ClientRecord.Valid, Buffer.Valid;
      var p := records.GetPos(i);
      var c := p.value;
      assert Entry(c, Clients[i]);
      found := c.sock == fd;
      if found {
        c.Disconnect();
        OthersKeep(i);
        Adopt(i);
      }
    }

    /** disconnect_client's loop: every record with this socket goes offline. */
    method Disconnect(fd: int) returns (found: bool)
      requires Valid()
      modifies Repr
      ensures Valid() && Repr == old(Repr)
      ensures found <==> Owned(old(Clients), fd)
      ensures Clients == StepAll(old(Clients), Broker.Disconnect(fd))
    {
      hide ClientRecord.Valid, Buffer.Valid;
      ghost var was, e := Clients, Broker.Disconnect(fd);
      var i := 0;
      found := false;
      while i < records.len
        invariant Valid() && Repr == old(Repr)
        invariant i <= |Clients| && SteppedTo(was, e, i)
        invariant found <==> Owned(was[..i], fd)
        decreases |Clients| - i
      {
        var here := DisconnectAt(i, fd);
        found := found || here;
        OwnedOneMore(was, i, fd);
        i := i + 1;
      }
      assert was[..i] == was;
      AllStepped(was, Clients, e);
    }

    /** The records before `i` have made the step `e`, the others not yet. */
    ghost predicate SteppedTo(was: seq<Client>, e: Event, i: nat)
      reads this
    {
      && |Clients| == |was|
      && forall k :: 0 <= k < |was| ==> Clients[k] == if k < i then Step(was[k], e) else was[k]
    }

    method ConnectAt(i: nat, fd: int, id: seq<byte>)
      requires Valid() && i < |Clients|
      requires Clients[i].id == id && Clients[i].sock == OFFLINE
      modifies Repr
      ensures Valid() && Repr == old(Repr) && records.Contents == old(records.Contents)
      ensures Clients == old(Clients)[i := Step(old(Clients[i]), Broker.Identify(fd, id))]
    {
      hide ClientRecord.Valid, Buffer.Valid;
      var p := records.GetPos(i);
      var c := p.value;
      assert Entry(c, Clients[i]);
      c.Connect(fd);
      OthersKeep(i);
      Adopt(i);
    }

    /** Growing the pointer buffer leaves all records alone. */
    twostate lemma EntriesKeep()
      requires old(Valid())
      requires forall o :: o in old(Repr) && o != records && o != old(records.data) ==> unchanged(o)
      requires records.data == old(records.data) || fresh(records.data)
      ensures unchanged(this) && Apart(old(records.Contents))
      ensures forall k :: 0 <= k < |Clients| ==> Entry(old(records.Contents)[k], Clients[k])
    {
      hide ClientRecord.Valid, Buffer.Valid;
      forall k | 0 <= k < |Clients|
        ensures Entry(old(records.Contents)[k], Clients[k])
        ensures old(records.Contents)[k].Repr == old(records.Contents[k].Repr)
      {
        assert old(Entry(records.Contents[k], Clients[k]));
      }
    }

    /** Everything the table needs but the abstract value of the record just appended. */
    ghost predicate Joining(c: ClientRecord)
      reads this, c, Repr
    {
      && this in Repr && records in Repr && records.data in Repr
      && records.Valid() && records.cap >= 2
      && |records.Contents| == |Clients| + 1 && records.Contents[|Clients|] == c
      && Entry(c, c.Model)
      && (forall k :: 0 <= k < |Clients| ==> Entry(records.Contents[k], Clients[k]))
    }

    /** Take over the memory of the record just appended, */
    ghost method AdoptMemory(c: ClientRecord)
      requires |records.Contents| == |Clients| + 1 && records.Contents[|Clients|] == c
      requires this in Repr && records in Repr && records.Valid() && records.cap >= 2
      requires forall k :: 0 <= k < |Clients| ==> Entry(records.Contents[k], Clients[k])
      requires {this, records, records.data} !! c.Repr && c.Valid()
      modifies `Repr
      ensures Joining(c) && Repr == old(Repr) + {records.data} + c.Repr
    {
      hide ClientRecord.Valid, Buffer.Valid;
      Repr := Repr + {records.data} + c.Repr;
      assert forall k :: 0 <= k < |Clients| ==> old(Entry(records.Contents[k], Clients[k]));
    }

    /** and its abstract value. */
    ghost method AdoptLast(c: ClientRecord)
      requires Joining(c) && Apart(records.Contents) && DistinctIds(Clients + [c.Model])
      modifies `Clients
      ensures Valid() && Clients == old(Clients) + [c.Model]
    {
      hide ClientRecord.Valid, Buffer.Valid;
      ghost var was := Clients;
      Clients := Clients + [c.Model];
      assert forall k :: 0 <= k < |was| ==> Clients[k] == was[k] && old(Entry(records.Contents[k], was[k]));
    }

    /** A new record at the end of the table. */
    method Append(fd: int, id: seq<byte>)
      requires Valid() && !Known(Clients, id)
      modifies Repr
      ensures Valid() && fresh(Repr - old(Repr))
      ensures Clients == old(Clients) + [NewClient(fd, id)]
    {
      hide ClientRecord.Valid, Buffer.Valid;
      DistinctOneMore(Clients, NewClient(fd, id));
      hide Known, DistinctIds;
      var c := new ClientRecord(fd, id);
      ghost var cs := records.Contents;
      records.AddPos(c, records.len);
      EntriesKeep();
      assert forall k :: 0 <= k < |Clients| ==> Entry(cs[k], Clients[k]);
      ApartOneMore(cs, c, Repr);
      assert records.Contents == cs + [c];
      AdoptMemory(c);
      AdoptLast(c);
    }

    /** handle_id_client's search: reconnect, turn away or register. */
    method Identify(fd: int, id: seq<byte>) returns (taken: bool)
      requires Valid()
      modifies Repr
      ensures Valid() && fresh(Repr - old(Repr))
      ensures taken <==> Taken(old(Clients), id)
      ensures Clients == StepAll(old(Clients), Broker.Identify(fd, id)) + Joined(old(Clients), Broker.Identify(fd, id))
    {
      hide ClientRecord.Valid, Buffer.Valid;
      var i := 0;
      while i < records.len
        invariant Valid() && Repr == old(Repr) && unchanged(Repr)
        invariant i <= |Clients|
        invariant forall k :: 0 <= k < i ==> Clients[k].id != id
        decreases |Clients| - i
      {
        var p := records.GetPos(i);
        var c := p.value;
        assert Entry(c, Clients[i]);
        if c.id == id {
          OnlyRecordWithId(Clients, i, fd);
          if c.sock != OFFLINE {
            return true;
          }
          ConnectAt(i, fd, id);
          return false;
        }
        i := i + 1;
      }
      NoRecordWithId(Clients, fd, id);
      Append(fd, id);
      taken := false;
    }
  }

  lemma OwnedOneMore(cs: seq<Client>, i: nat, fd: int)
    requires i < |cs|
    ensures Owned(cs[..i + 1], fd) <==> Owned(cs[..i], fd) || cs[i].sock == fd
  {
    var more, less := cs[..i + 1], cs[..i];
    if Owned(more, fd) {
      var k :| 0 <= k < |more| && more[k].sock == fd;
      assert k < i ==> less[k].sock == fd;
    }
    if Owned(less, fd) {
      var k :| 0 <= k < |less| && less[k].sock == fd;
      assert more[k].sock == fd;
    }
    assert more[i] == cs[i];
  }

  lemma AllStepped(was: seq<Client>, now: seq<Client>, e: Event)
    requires |now| == |was| && forall k :: 0 <= k < |was| ==> now[k] == Step(was[k], e)
    ensures now == StepAll(was, e)
  {
  }

  lemma OnlyRecordWithId(cs: seq<Client>, i: nat, fd: int)
    requires DistinctIds(cs) && i < |cs|
    ensures var e := Identify(fd, cs[i].id);
            && StepAll(cs, e) + Joined(cs, e) == cs[i := Step(cs[i], e)]
            && (Taken(cs, cs[i].id) <==> cs[i].sock != OFFLINE)
  {
    var e := Identify(fd, cs[i].id);
    forall k | 0 <= k < |cs| && k != i ensures cs[k].id != cs[i].id && Step(cs[k], e) == cs[k] {
      if k < i { assert cs[k].id != cs[i].id; } else { assert cs[i].id != cs[k].id; }
    }
    assert StepAll(cs, e) == cs[i := Step(cs[i], e)];
  }

  lemma NoRecordWithId(cs: seq<Client>, fd: int, id: seq<byte>)
    requires forall k :: 0 <= k < |cs| ==> cs[k].id != id
    ensures var e := Identify(fd, id);
            StepAll(cs, e) + Joined(cs, e) == cs + [NewClient(fd, id)]
    ensures !Taken(cs, id)
  {
    var e := Identify(fd, id);
    assert forall k :: 0 <= k < |cs| ==> Step(cs[k], e) == cs[k];
    assert StepAll(cs, e) == cs;
  }
}
