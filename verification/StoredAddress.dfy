/**
 The queue as it is written. action.c:86-88 copies the frame to the heap but queues the address of
 the block-local variable that points to the copy. In C that variable is gone when the block ends.
 Here it is given the most it could have: one place, kept for the whole run, in which every later
 store by anyone replaces the pointer. A replay then sends what the place leads to, once for each
 queued address.
 */
module StoredAddress {
  import opened Bytes
  import opened Options
  import opened Seqs
  import opened Subscriptions
  import opened Broker
  import opened History

  /** The server with that one place; `waiting` is what the queue was meant to hold. */
  datatype Memory = Memory(reg: Registry, local: Option<Frame>)

  predicate Stores(c: Client, e: Event) {
    e.Publish? && c.sock == OFFLINE && Copies(c.subs, e.topic, false) > 0
  }

  /** The publication is stored for some client, through the same variable for all of them. */
  predicate StoredForSomeone(cs: seq<Client>, e: Event) {
    exists i :: 0 <= i < |cs| && Stores(cs[i], e)
  }

  function LocalAfter(m: Memory, e: Event): Option<Frame> {
    if StoredForSomeone(m.reg.clients, e) then Some(e.frame) else m.local
  }

  predicate Reconnects(c: Client, e: Event) {
    e.Identify? && c.id == e.id && c.sock == OFFLINE
  }

  /** What dereferencing `count` copies of the one address sends. */
  function ReplayThrough(fd: int, count: nat, local: Option<Frame>): seq<Send> {
    match local
    case Some(f) => Replay(fd, Repeat(f, count))
    case None => []
  }

  function StepAsWritten(c: Client, e: Event, local: Option<Frame>): Client {
    if Reconnects(c, e)
    then c.(sock := e.fd, waiting := [], sent := c.sent + ReplayThrough(e.fd, |c.waiting|, local))
    else Step(c, e)
  }

  function HandleAsWritten(m: Memory, e: Event): Memory {
    var cs := m.reg.clients;
    var stepped := seq(|cs|, i requires 0 <= i < |cs| => StepAsWritten(cs[i], e, m.local));
    Memory(Handle(m.reg, e).(clients := stepped + Joined(cs, e)), LocalAfter(m, e))
  }

  function RunAsWritten(s: Registry, es: seq<Event>): Memory {
    if es == [] then Memory(s, None) else HandleAsWritten(RunAsWritten(s, Front(es)), Last(es))
  }

  /** The last frame stored for anyone, read off the intended run. */
  function LastStored(s: Registry, es: seq<Event>): Option<Frame> {
    if es == [] then None
    else if StoredForSomeone(Run(s, Front(es)).clients, Last(es)) then Some(Last(es).frame)
    else LastStored(s, Front(es))
  }

  // ---- both runs side by side ----

  /** Equal but for what replays have sent, and that at least in number. */
  ghost predicate Twins(w: Client, c: Client) {
    w.(sent := c.sent) == c && |w.sent| == |c.sent|
  }

  /** The written run mirrors the intended one, and the place holds the last frame stored. */
  ghost predicate Mirrors(w: Memory, r: Registry, last: Option<Frame>) {
    && w.local == last
    && |w.reg.clients| == |r.clients|
    && (forall i :: 0 <= i < |r.clients| ==> Twins(w.reg.clients[i], r.clients[i]))
    && (forall i :: 0 <= i < |r.clients| && r.clients[i].waiting != [] ==> last.Some?)
  }

  lemma PublishAppends(c: Client, topic: seq<byte>, frame: Frame)
    ensures Step(c, Publish(topic, frame)) == Given(c, frame, Copies(c.subs, topic, c.sock != OFFLINE))
  {
    DeliverIsRepeat(c, topic, frame, |c.subs|);
    assert c.subs[..|c.subs|] == c.subs;
  }

  /** One step keeps a pair twins; what each side sends is what the other does, but for a replay. */
  lemma TwinsStep(w: Client, c: Client, e: Event, last: Option<Frame>)
    requires Twins(w, c) && (c.waiting != [] ==> last.Some?)
    ensures Twins(StepAsWritten(w, e, last), Step(c, e))
    ensures StepAsWritten(w, e, last).sent == Step(c, e).sent <==>
            w.sent == c.sent &&
            (Reconnects(c, e) ==> forall i :: 0 <= i < |c.waiting| ==> Some(c.waiting[i]) == last)
    ensures Step(c, e).waiting != [] ==> last.Some? || Stores(c, e)
  {
    if Reconnects(c, e) {
      var x, y := ReplayThrough(e.fd, |c.waiting|, last), Replay(e.fd, c.waiting);
      ReplaysAgreeIff(e.fd, c.waiting, last);
      AppendedAgreeIff(w.sent, c.sent, x, y);
    } else if e.Publish? {
      PublishAppends(c, e.topic, e.frame);
      PublishAppends(w, e.topic, e.frame);
      if c.sock != OFFLINE {
        var x := Repeat(Send(c.sock, e.frame), Copies(c.subs, e.topic, true));
        AppendedAgreeIff(w.sent, c.sent, x, x);
      }
    }
  }

  lemma AppendedAgreeIff(a: seq<Send>, b: seq<Send>, x: seq<Send>, y: seq<Send>)
    requires |a| == |b| && |x| == |y|
    ensures a + x == b + y <==> a == b && x == y
  {
    if a + x == b + y {
      assert a == (a + x)[..|a|] && b == (b + y)[..|b|];
      assert x == (a + x)[|a|..] && y == (b + y)[|b|..];
    }
  }

  lemma ReplaysAgreeIff(fd: int, waiting: seq<Frame>, last: Option<Frame>)
    requires waiting != [] ==> last.Some?
    ensures |ReplayThrough(fd, |waiting|, last)| == |Replay(fd, waiting)|
    ensures ReplayThrough(fd, |waiting|, last) == Replay(fd, waiting)
            <==> forall i :: 0 <= i < |waiting| ==> Some(waiting[i]) == last
  {
    var a, b := ReplayThrough(fd, |waiting|, last), Replay(fd, waiting);
    if a == b {
      forall i | 0 <= i < |waiting| ensures Some(waiting[i]) == last {
        assert a[i] == b[i];
      }
    }
  }

  lemma SameBystanders(w: Memory, r: Registry, last: Option<Frame>, e: Event)
    requires Mirrors(w, r, last)
    ensures Joined(w.reg.clients, e) == Joined(r.clients, e)
    ensures StoredForSomeone(w.reg.clients, e) <==> StoredForSomeone(r.clients, e)
  {
    var a, b := w.reg.clients, r.clients;
    assert forall i :: 0 <= i < |b| ==> a[i].id == b[i].id && (Stores(a[i], e) <==> Stores(b[i], e));
    if e.Identify? {
      if Known(a, e.id) {
        var i :| 0 <= i < |a| && a[i].id == e.id;
        assert b[i].id == e.id;
      }
      if Known(b, e.id) {
        var i :| 0 <= i < |b| && b[i].id == e.id;
        assert a[i].id == e.id;
      }
    }
  }

  lemma {:induction false} MirrorsStep(w: Memory, r: Registry, last: Option<Frame>, e: Event)
    requires Mirrors(w, r, last)
    ensures Mirrors(HandleAsWritten(w, e), Handle(r, e), if StoredForSomeone(r.clients, e) then Some(e.frame) else last)
  {
    hide Twins, Step, StepAsWritten, Stores, Reconnects;
    SameBystanders(w, r, last, e);
    var cs, w', r' := r.clients, HandleAsWritten(w, e), Handle(r, e);
    forall i | 0 <= i < |r'.clients|
      ensures Twins(w'.reg.clients[i], r'.clients[i])
      ensures r'.clients[i].waiting != [] ==> last.Some? || StoredForSomeone(cs, e)
    {
      if i < |cs| {
        TwinsStep(w.reg.clients[i], cs[i], e, last);
      } else {
        Newborn(r'.clients[i], e);
      }
    }
  }

  lemma Newborn(c: Client, e: Event)
    requires e.Identify? && c == NewClient(e.fd, e.id)
    ensures Twins(c, c) && c.waiting == []
  {
  }

  lemma {:induction false} RunsMirror(s: Registry, es: seq<Event>)
    requires s.clients == []
    ensures Mirrors(RunAsWritten(s, es), Run(s, es), LastStored(s, es))
  {
    if es != [] {
      hide HandleAsWritten, Handle, Mirrors, StoredForSomeone;
      RunsMirror(s, Front(es));
      MirrorsStep(RunAsWritten(s, Front(es)), Run(s, Front(es)), LastStored(s, Front(es)), Last(es));
    } else {
      assert Mirrors(RunAsWritten(s, es), Run(s, es), LastStored(s, es));
    }
  }

  /**
   At event `n`, a reconnection of record `j` finds in its queue nothing but copies of the last frame
   stored for anyone.
   */
  ghost predicate ReplaysRight(s: Registry, es: seq<Event>, n: nat, j: nat)
    requires n < |es|
  {
    var cs := Run(s, es[..n]).clients;
    j < |cs| && Reconnects(cs[j], es[n]) ==>
      forall i :: 0 <= i < |cs[j].waiting| ==> Some(cs[j].waiting[i]) == LastStored(s, es[..n])
  }

  lemma OneMoreEvent(s: Registry, es: seq<Event>, j: nat)
    requires es != []
    ensures (forall n :: 0 <= n < |es| ==> ReplaysRight(s, es, n, j)) <==>
            (forall n :: 0 <= n < |es| - 1 ==> ReplaysRight(s, Front(es), n, j)) && ReplaysRight(s, es, |es| - 1, j)
  {
    forall n | 0 <= n < |es| - 1 ensures ReplaysRight(s, es, n, j) <==> ReplaysRight(s, Front(es), n, j) {
      assert Front(es)[..n] == es[..n];
    }
  }

  /** The last event keeps the streams equal exactly if they were and it replays right. */
  lemma LastEventDecides(s: Registry, es: seq<Event>, j: nat)
    requires s.clients == [] && es != [] && j < |Run(s, Front(es)).clients|
    ensures var before := Front(es);
            && |Run(s, es).clients| >= |Run(s, before).clients| == |RunAsWritten(s, before).reg.clients|
            && |RunAsWritten(s, es).reg.clients| >= |Run(s, before).clients|
            && (RunAsWritten(s, es).reg.clients[j].sent == Run(s, es).clients[j].sent <==>
                RunAsWritten(s, before).reg.clients[j].sent == Run(s, before).clients[j].sent &&
                ReplaysRight(s, es, |es| - 1, j))
  {
    hide Step, StepAsWritten, Twins, Reconnects;
    var before := Front(es);
    RunsMirror(s, before);
    TwinsStep(RunAsWritten(s, before).reg.clients[j], Run(s, before).clients[j], Last(es), LastStored(s, before));
  }

  lemma NewRecordsAgree(s: Registry, es: seq<Event>, j: nat)
    requires s.clients == [] && es != [] && |Run(s, Front(es)).clients| <= j < |Run(s, es).clients|
    ensures j < |RunAsWritten(s, es).reg.clients|
    ensures RunAsWritten(s, es).reg.clients[j].sent == Run(s, es).clients[j].sent
  {
    hide Step, StepAsWritten, Twins, Reconnects;
    RunsMirror(s, Front(es));
    SameBystanders(RunAsWritten(s, Front(es)), Run(s, Front(es)), LastStored(s, Front(es)), Last(es));
  }

  /**
   The queue as it is written, over every run: a record's stream is the intended one exactly if each
   of its reconnections finds nothing waiting but the last frame stored for any client.
   */
  lemma {:induction false} WrittenQueueIsRightIff(s: Registry, es: seq<Event>, j: nat)
    requires s.clients == [] && j < |Run(s, es).clients|
    ensures j < |RunAsWritten(s, es).reg.clients|
    ensures RunAsWritten(s, es).reg.clients[j].sent == Run(s, es).clients[j].sent
            <==> forall n :: 0 <= n < |es| ==> ReplaysRight(s, es, n, j)
  {
    NoRecordWithoutEvents(s, es, j);
    hide Run, RunAsWritten, ReplaysRight;
    if j < |Run(s, Front(es)).clients| {
      WrittenQueueIsRightIff(s, Front(es), j);
      LastEventDecides(s, es, j);
      OneMoreEvent(s, es, j);
    } else {
      NewRecordsAgree(s, es, j);
      RecordsStay(s, es, j);
    }
  }

  lemma NoRecordWithoutEvents(s: Registry, es: seq<Event>, j: nat)
    requires s.clients == [] && j < |Run(s, es).clients|
    ensures es != []
  {
  }

  /** A record that is not there yet has not been there before. */
  lemma {:induction false} RecordsStay(s: Registry, es: seq<Event>, j: nat)
    requires es != [] && j >= |Run(s, Front(es)).clients|
    ensures forall n :: 0 <= n < |es| ==> ReplaysRight(s, es, n, j)
  {
    forall n | 0 <= n < |es| ensures ReplaysRight(s, es, n, j) {
      TableGrows(s, Front(es), n);
      assert Front(es)[..n] == es[..n];
    }
  }

  lemma {:induction false} TableGrows(s: Registry, es: seq<Event>, n: nat)
    requires n <= |es|
    ensures |Run(s, es[..n]).clients| <= |Run(s, es).clients|
    decreases |es|
  {
    if n == |es| {
      assert es[..n] == es;
    } else {
      TableGrows(s, Front(es), n);
      assert Front(es)[..n] == es[..n];
    }
  }
}
