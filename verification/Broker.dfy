/**
 The broker as a state machine over plain values: what each handler of action.c does to the client
 table and to the descriptor set. The heap classes are proved to follow it.
 */
module Broker {
  import opened Bytes
  import opened Seqs
  import opened Subscriptions

  type Frame = seq<byte>

  const OFFLINE := -1

  /** One call of send on a client's socket. */
  datatype Send = Send(sock: int, frame: Frame)

  /** A record of the client table; `sent` is everything ever sent for it, over all its sessions. */
  datatype Client = Client(
    id: seq<byte>, sock: int, subs: seq<Sub>, waiting: seq<Frame>, sent: seq<Send>)

  /** A handler call, with what it read from the shared receive buffer. */
  datatype Event =
    | Accept(fd: int)
    | Identify(fd: int, id: seq<byte>)
    | Subscribe(fd: int, topic: seq<byte>, sf: int)
    | Unsubscribe(fd: int, topic: seq<byte>)
    | Publish(topic: seq<byte>, frame: Frame)
    | Disconnect(fd: int)
    | Ignored

  /** One pass of the match loop body, for one subscription entry. */
  function DeliverOne(c: Client, s: Sub, topic: seq<byte>, frame: Frame): Client {
    if s.topic != topic then c
    else if c.sock != OFFLINE then c.(sent := c.sent + [Send(c.sock, frame)])
    else if s.sf == 1 then c.(waiting := c.waiting + [frame])
    else c
  }

  /** The match loop over the first `j` entries. */
  function Deliver(c: Client, topic: seq<byte>, frame: Frame, j: nat): (r: Client)
    requires j <= |c.subs|
    ensures r.id == c.id && r.sock == c.sock && r.subs == c.subs && c.sent <= r.sent
  {
    if j == 0 then c else DeliverOne(Deliver(c, topic, frame, j - 1), c.subs[j - 1], topic, frame)
  }

  /** Replay of the waiting queue on a new session, oldest first. */
  function Replay(fd: int, waiting: seq<Frame>): (r: seq<Send>)
    ensures |r| == |waiting|
  {
    seq(|waiting|, i requires 0 <= i < |waiting| => Send(fd, waiting[i]))
  }

  /** What one event does to one existing record. */
  function Step(c: Client, e: Event): (r: Client)
    ensures r.id == c.id && c.sent <= r.sent
  {
    match e
    case Identify(fd, id) =>
      if c.id == id && c.sock == OFFLINE
      then c.(sock := fd, waiting := [], sent := c.sent + Replay(fd, c.waiting))
      else c
    case Subscribe(fd, topic, sf) =>
      if c.sock == fd then c.(subs := [Sub(topic, sf)] + c.subs) else c
    case Unsubscribe(fd, topic) =>
      if c.sock == fd then c.(subs := Unsubscribed(c.subs, topic)) else c
    case Publish(topic, frame) => Deliver(c, topic, frame, |c.subs|)
    case Disconnect(fd) => if c.sock == fd then c.(sock := OFFLINE) else c
    case Accept(_) => c
    case Ignored => c
  }

  /** What it sends for it. */
  function NewSends(c: Client, e: Event): seq<Send> {
    Step(c, e).sent[|c.sent|..]
  }

  /** Every descriptor in the history is a real one. */
  predicate RealDescriptors(es: seq<Event>) {
    forall i :: 0 <= i < |es| && es[i].Identify? ==> es[i].fd != OFFLINE
  }

  function NewClient(fd: int, id: seq<byte>): Client {
    Client(id, fd, [], [], [])
  }

  // ---- the client table ----

  datatype Registry = Registry(clients: seq<Client>, active: set<int>, fdClients: int)

  predicate DistinctIds(cs: seq<Client>) {
    forall i, j :: 0 <= i < j < |cs| ==> cs[i].id != cs[j].id
  }

  predicate Known(clients: seq<Client>, id: seq<byte>) {
    exists i :: 0 <= i < |clients| && clients[i].id == id
  }

  predicate Owned(clients: seq<Client>, fd: int) {
    exists i :: 0 <= i < |clients| && clients[i].sock == fd
  }

  /** The ID belongs to a client that is connected already. */
  predicate Taken(clients: seq<Client>, id: seq<byte>) {
    exists i :: 0 <= i < |clients| && clients[i].id == id && clients[i].sock != OFFLINE
  }

  function StepAll(clients: seq<Client>, e: Event): (r: seq<Client>)
    ensures |r| == |clients|
  {
    seq(|clients|, i requires 0 <= i < |clients| => Step(clients[i], e))
  }

  function Joined(clients: seq<Client>, e: Event): seq<Client> {
    if e.Identify? && !Known(clients, e.id) then [NewClient(e.fd, e.id)] else []
  }

  function Active(s: Registry, e: Event): set<int> {
    match e
    case Accept(fd) => s.active + {fd}
    case Identify(fd, id) => if Taken(s.clients, id) then s.active - {fd} else s.active
    case Disconnect(fd) => if Owned(s.clients, fd) then s.active - {fd} else s.active
    case _ => s.active
  }

  function Handle(s: Registry, e: Event): Registry {
    Registry(StepAll(s.clients, e) + Joined(s.clients, e), Active(s, e),
             if e.Accept? && e.fd > s.fdClients then e.fd else s.fdClients)
  }

  function Run(s: Registry, es: seq<Event>): Registry {
    if es == [] then s else Handle(Run(s, es[..|es| - 1]), es[|es| - 1])
  }
}
