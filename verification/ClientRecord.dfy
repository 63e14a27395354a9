/** A client record of the server's table, on the heap (struct Client of action.h). */
module ClientRecords {
  import opened Bytes
  import opened Subscriptions
  import opened Broker
  import opened Wire
  import opened Interests
  import opened WaitingFrames

  /** One message of the queue sent on the client's socket. */
  function SentNext(c: Client): Client
    requires c.waiting != []
  {
    c.(sent := c.sent + [Send(c.sock, c.waiting[0])], waiting := c.waiting[1..])
  }

  /** After `n` turns of the replay loop. */
  function Replayed(c: Client, n: nat): Client
    requires n <= |c.waiting|
  {
    c.(sent := c.sent + Replay(c.sock, c.waiting[..n]), waiting := c.waiting[n..])
  }

  lemma ReplayedSteps(c: Client, n: nat)
    requires n <= |c.waiting|
    ensures Replayed(c, 0) == c
    ensures n < |c.waiting| ==> Replayed(c, n + 1) == SentNext(Replayed(c, n))
    ensures n == |c.waiting| ==> Replayed(c, n) == c.(sent := c.sent + Replay(c.sock, c.waiting), waiting := [])
  {
    assert c.sent + Replay(c.sock, c.waiting[..0]) == c.sent && c.waiting[0..] == c.waiting;
    if n < |c.waiting| {
      assert Replay(c.sock, c.waiting[..n + 1]) == Replay(c.sock, c.waiting[..n]) + [Send(c.sock, c.waiting[n])];
    } else {
      assert c.waiting[..n] == c.waiting;
    }
  }

  class ClientRecord {
    const id: seq<byte>
    var sock: int
    const interests: TopicSF
    const inWaiting: FrameQueue
    ghost var sent: seq<Send>  // what send was called with
    ghost var Model: Client
    ghost var Repr: set<object>

    ghost predicate Valid()
      reads this, Repr
      ensures Valid() ==> this in Repr && Model.id == id && Model.sock == sock
    {
      && this in Repr && interests in Repr && inWaiting in Repr
      && interests.Repr <= Repr && inWaiting.Repr <= Repr
      && this !in interests.Repr && this !in inWaiting.Repr && interests.Repr !! inWaiting.Repr
      && interests.Valid() && inWaiting.Valid()
      && Model == Client(id, sock, interests.Subs, inWaiting.Frames, sent)
    }

    constructor (fd: int, id: seq<byte>)
      ensures Valid() && fresh(Repr)
      ensures Model == NewClient(fd, id) && this.id == id
    {
      hide TopicSF.Valid, FrameQueue.Valid;
      var i := new TopicSF();
      var w := new FrameQueue();
      this.id, sock, interests, inWaiting, sent := id, fd, i, w, [];
      Model := NewClient(fd, id);
      Repr := {this} + i.Repr + w.Repr;
    }

    method Subscribe(topic: seq<byte>, sf: int)
      requires Valid()
      modifies Repr
      ensures Valid() && fresh(Repr - old(Repr))
      ensures Model == Step(old(Model), Broker.Subscribe(old(sock), topic, sf))
    {
      hide TopicSF.Valid, FrameQueue.Valid;
      interests.Add(topic, sf);
      Repr := Repr + interests.Repr;
      Model := Model.(subs := interests.Subs);
    }

    method Unsubscribe(topic: seq<byte>)
      requires Valid()
      modifies Repr
      ensures Valid() && Repr == old(Repr)
      ensures Model == Step(old(Model), Broker.Unsubscribe(old(sock), topic))
    {
      hide TopicSF.Valid, FrameQueue.Valid;
      interests.DeleteAll(topic);
      Model := Model.(subs := interests.Subs);
    }

    /** The match loop body: send now, or store a copy for later. */
    method DeliverOne(j: nat, topic: seq<byte>, format: array<byte>)
      requires Valid() && format !in Repr && format.Length == FRAME_LEN && j < |Model.subs|
      modifies Repr
      ensures Valid() && fresh(Repr - old(Repr))
      ensures Model == Broker.DeliverOne(old(Model), old(Model.subs[j]), topic, format[..])
    {
      hide TopicSF.Valid, FrameQueue.Valid;
      var s := interests.Get(j);
      if s.topic == topic {
        if sock != OFFLINE {
          sent := sent + [Send(sock, format[..])];
          Model := Model.(sent := sent);
        } else if s.sf == 1 {
          inWaiting.Store(format);
          Repr := Repr + inWaiting.Repr;
          Model := Model.(waiting := inWaiting.Frames);
        }
      }
    }

    /** The match loop of a publication; the shared `format` is filled afresh for each entry. */
    method Publish(topic: seq<byte>, format: array<byte>, buffer: array<byte>, ip: seq<byte>, port: nat)
      requires Valid() && format !in Repr && buffer !in Repr && format != buffer
      requires format.Length == FRAME_LEN && buffer.Length == BUFFER_SERVER_LEN
      requires Dotted(ip) && port < U16
      modifies Repr, format
      ensures Valid() && fresh(Repr - old(Repr))
      ensures Model == Step(old(Model), Broker.Publish(topic, FrameOf(buffer[..], ip, port)))
    {
      hide TopicSF.Valid, FrameQueue.Valid;
      ghost var c, frame := Model, FrameOf(buffer[..], ip, port);
      var j := 0;
      var n := interests.Len();
      while j < n
        invariant Valid() && fresh(Repr - old(Repr)) && format !in Repr && buffer !in Repr
        invariant unchanged(buffer)
        invariant j <= n == |c.subs| && Model == Deliver(c, topic, frame, j)
      {
        FormatBuffer(format, buffer, ip, port);
        assert format[..] == frame;
        DeliverOne(j, topic, format);
        j := j + 1;
      }
    }

    /** One turn of the replay loop. */
    method SendNext()
      requires Valid() && Model.waiting != []
      modifies Repr
      ensures Valid() && Repr == old(Repr) && sock == old(sock)
      ensures Model == SentNext(old(Model))
    {
      hide TopicSF.Valid, FrameQueue.Valid;
      ghost var was := inWaiting.Frames;
      var message := inWaiting.Next();
      assert message[..] == was[0] && inWaiting.Frames == was[1..];
      sent := sent + [Send(sock, message[..])];
      Model := Client(id, sock, interests.Subs, inWaiting.Frames, sent);
    }

    /** The replay loop: the whole queue goes out, oldest first. */
    method Drain()
      requires Valid()
      modifies Repr
      ensures Valid() && Repr == old(Repr)
      ensures Model == Replayed(old(Model), |old(Model).waiting|)
    {
      hide TopicSF.Valid, FrameQueue.Valid;
      ghost var c, n, r := Model, 0, Repr;
      ReplayedSteps(c, 0);
      while !inWaiting.IsEmpty()
        invariant Valid() && Repr == r
        invariant n <= |c.waiting| && Model == Replayed(c, n)
        decreases |Model.waiting|
      {
        ReplayedSteps(c, n);
        SendNext();
        n := n + 1;
      }
    }

    /** A new session begins with everything missed. */
    method Connect(fd: int)
      requires Valid() && sock == OFFLINE
      modifies Repr
      ensures Valid() && Repr == old(Repr)
      ensures Model == Step(old(Model), Identify(fd, id))
    {
      hide TopicSF.Valid, FrameQueue.Valid;
      sock := fd;
      Model := Model.(sock := fd);
      ReplayedSteps(Model, |Model.waiting|);
      Drain();
    }

    method Disconnect()
      requires Valid()
      modifies Repr
      ensures Valid() && Repr == old(Repr)
      ensures Model == Step(old(Model), Broker.Disconnect(old(sock)))
    {
      hide TopicSF.Valid, FrameQueue.Valid;
      sock := OFFLINE;
      Model := Model.(sock := OFFLINE);
    }
  }
}
