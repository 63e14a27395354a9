/**
 What a client is owed, read off the event history alone, and the proof that on every run the
 broker sends or keeps exactly that: nothing lost, doubled, reordered or unsubscribed.
 */
module History {
  import opened Bytes
  import opened Options
  import opened Seqs
  import opened Subscriptions
  import opened Broker

  function Last(es: seq<Event>): Event
    requires es != []
  {
    es[|es| - 1]
  }

  function Front(es: seq<Event>): seq<Event>
    requires es != []
  {
    es[..|es| - 1]
  }

  // ---- reference: session and subscriptions of one ID after a history ----

  datatype Life = Absent | Present(sock: int, subs: seq<Sub>)

  function LifeAfter(k: seq<byte>, l: Life, e: Event): Life {
    match l
    case Absent => if e.Identify? && e.id == k then Present(e.fd, []) else Absent
    case Present(sock, subs) =>
      match e
      case Identify(fd, id) => if id == k && sock == OFFLINE then Present(fd, subs) else l
      case Disconnect(fd) => if sock == fd then Present(OFFLINE, subs) else l
      case Subscribe(fd, topic, sf) => if sock == fd then Present(sock, [Sub(topic, sf)] + subs) else l
      case Unsubscribe(fd, topic) => if sock == fd then Present(sock, LeftBehind(subs, topic)) else l
      case _ => l
  }

  function LifeOf(k: seq<byte>, es: seq<Event>): Life {
    if es == [] then Absent else LifeAfter(k, LifeOf(k, Front(es)), Last(es))
  }

  /** How many copies of a publication the client is owed; no other event owes it anything. */
  function CopiesDue(l: Life, e: Event): nat {
    if l.Present? && e.Publish? then Copies(l.subs, e.topic, l.sock != OFFLINE) else 0
  }

  /** Of what came with each event, everything client `k` is owed over the history, in order of publication. */
  function Owed<T>(k: seq<byte>, es: seq<Event>, what: seq<T>): seq<T>
    requires |what| == |es|
  {
    if es == [] then []
    else
      Owed(k, Front(es), what[..|es| - 1]) + Repeat(what[|es| - 1], CopiesDue(LifeOf(k, Front(es)), Last(es)))
  }

  function FramesIn(es: seq<Event>): (r: seq<Frame>)
    ensures |r| == |es|
  {
    seq(|es|, n requires 0 <= n < |es| => if es[n].Publish? then es[n].frame else [])
  }

  /** The frames client `k` is owed. */
  function Expected(k: seq<byte>, es: seq<Event>): seq<Frame> {
    Owed(k, es, FramesIn(es))
  }

  /** What one event adds to them. */
  function Due(l: Life, e: Event): seq<Frame> {
    if e.Publish? then Repeat(e.frame, CopiesDue(l, e)) else []
  }

  lemma ExpectedAfter(k: seq<byte>, es: seq<Event>)
    requires es != []
    ensures Expected(k, es) == Expected(k, Front(es)) + Due(LifeOf(k, Front(es)), Last(es))
  {
    hide LifeOf, Copies;
    assert FramesIn(es)[..|es| - 1] == FramesIn(Front(es));
    assert !Last(es).Publish? ==> Repeat(FramesIn(es)[|es| - 1], 0) == [];
  }

  // ---- the broker's view of one ID ----

  /** The first record under an ID. */
  function Lookup(clients: seq<Client>, k: seq<byte>): (r: Option<Client>)
    ensures r.Some? ==> r.value in clients && r.value.id == k
    ensures r.None? <==> !Known(clients, k)
  {
    if clients == [] then None
    else if clients[0].id == k then Some(clients[0])
    else
      assert forall i :: 0 < i < |clients| ==> clients[i] == clients[1..][i - 1];
      assert forall i :: 0 <= i < |clients| - 1 ==> clients[1..][i] == clients[i + 1];
      Lookup(clients[1..], k)
  }

  /** One record run alone on the history. */
  function Solo(k: seq<byte>, es: seq<Event>): Option<Client> {
    if es == [] then None
    else
      match Solo(k, Front(es))
      case Some(c) => Some(Step(c, Last(es)))
      case None => if Last(es).Identify? && Last(es).id == k then Some(NewClient(Last(es).fd, k)) else None
  }

  lemma {:induction false} LookupOfStepAll(clients: seq<Client>, more: seq<Client>, k: seq<byte>, e: Event)
    ensures Lookup(StepAll(clients, e) + more, k) ==
            match Lookup(clients, k) case Some(c) => Some(Step(c, e)) case None => Lookup(more, k)
  {
    hide Step, Known;
    if clients == [] {
      assert StepAll(clients, e) + more == more;
    } else {
      LookupOfStepAll(clients[1..], more, k, e);
      assert (StepAll(clients, e) + more)[0] == Step(clients[0], e);
      assert (StepAll(clients, e) + more)[1..] == StepAll(clients[1..], e) + more;
    }
  }

  /** Each ID's record in the whole table evolves as if it were run alone. */
  lemma {:induction false} RunIsSolo(s: Registry, k: seq<byte>, es: seq<Event>)
    requires s.clients == []
    ensures Lookup(Run(s, es).clients, k) == Solo(k, es)
  {
    if es != [] {
      RunIsSolo(s, k, Front(es));
      var cs := Run(s, Front(es)).clients;
      LookupOfStepAll(cs, Joined(cs, Last(es)), k, Last(es));
    }
  }

  // ---- exactly-once, in-order store and forward ----

  function Frames(sends: seq<Send>): (r: seq<Frame>)
    ensures |r| == |sends|
  {
    seq(|sends|, i requires 0 <= i < |sends| => sends[i].frame)
  }

  lemma {:induction false} DeliverIsRepeat(c: Client, topic: seq<byte>, frame: Frame, j: nat)
    requires j <= |c.subs|
    ensures Deliver(c, topic, frame, j) == Given(c, frame, Copies(c.subs[..j], topic, c.sock != OFFLINE))
  {
    if j == 0 {
      assert c.sent + Repeat(Send(c.sock, frame), 0) == c.sent;
      assert c.waiting + Repeat(frame, 0) == c.waiting;
    } else {
      DeliverIsRepeat(c, topic, frame, j - 1);
      assert c.subs[..j] == c.subs[..j - 1] + [c.subs[j - 1]];
      CopiesOfConcat(c.subs[..j - 1], [c.subs[j - 1]], topic, c.sock != OFFLINE);
      GivenOneMore(c, frame, Copies(c.subs[..j - 1], topic, c.sock != OFFLINE));
    }
  }

  /** A client given `n` copies of a frame, on the wire or in its queue. */
  function Given(c: Client, frame: Frame, n: nat): Client {
    if c.sock != OFFLINE then c.(sent := c.sent + Repeat(Send(c.sock, frame), n))
    else c.(waiting := c.waiting + Repeat(frame, n))
  }

  lemma GivenOneMore(c: Client, frame: Frame, n: nat)
    ensures var g := Given(c, frame, n);
            Given(c, frame, n + 1) == if c.sock != OFFLINE then g.(sent := g.sent + [Send(c.sock, frame)])
                                      else g.(waiting := g.waiting + [frame])
  {
    var x := Send(c.sock, frame);
    assert c.sent + Repeat(x, n) + [x] == c.sent + Repeat(x, n + 1);
    assert c.waiting + Repeat(frame, n) + [frame] == c.waiting + Repeat(frame, n + 1);
  }

  /** The record of `k` is what the history says, and owes nothing but what is waiting. */
  ghost predicate Settled(k: seq<byte>, c: Client, l: Life, owed: seq<Frame>) {
    && l == Present(c.sock, c.subs)
    && c.id == k
    && Frames(c.sent) + c.waiting == owed
    && (c.sock != OFFLINE ==> c.waiting == [])
  }

  lemma StepSettles(k: seq<byte>, c: Client, l: Life, owed: seq<Frame>, e: Event)
    requires Settled(k, c, l, owed)
    requires e.Identify? ==> e.fd != OFFLINE
    ensures Settled(k, Step(c, e), LifeAfter(k, l, e), owed + Due(l, e))
  {
    assert owed + [] == owed;
    match e
    case Publish(topic, frame) =>
      DeliverIsRepeat(c, topic, frame, |c.subs|);
      assert c.subs[..|c.subs|] == c.subs;
      var n := Copies(c.subs, topic, c.sock != OFFLINE);
      assert Frames(c.sent + Repeat(Send(c.sock, frame), n)) == Frames(c.sent) + Repeat(frame, n);
      assert Frames(c.sent) + (c.waiting + Repeat(frame, n)) == (Frames(c.sent) + c.waiting) + Repeat(frame, n);
    case Identify(fd, id) =>
      assert Frames(c.sent + Replay(fd, c.waiting)) + [] == Frames(c.sent) + c.waiting;
    case Unsubscribe(fd, topic) =>
      UnsubscribeHalvesRuns(c.subs, topic);
    case _ =>
  }

  /**
   Store and forward over every run: for each ID, what was sent on all its sessions followed by
   what waits is exactly what the history owes it; while it is online nothing waits.
   */
  lemma {:induction false} StoreAndForward(k: seq<byte>, es: seq<Event>)
    requires RealDescriptors(es)
    ensures Solo(k, es).Some? <==> LifeOf(k, es).Present?
    ensures Solo(k, es).Some? ==> Settled(k, Solo(k, es).value, LifeOf(k, es), Expected(k, es))
    ensures Solo(k, es).None? ==> Expected(k, es) == []
  {
    if es != [] {
      StoreAndForward(k, Front(es));
      ExpectedAfter(k, es);
      if Solo(k, Front(es)).Some? {
        StepSettles(k, Solo(k, Front(es)).value, LifeOf(k, Front(es)), Expected(k, Front(es)), Last(es));
      }
    }
  }

  /** The same for the broker's table: a client online at the end has been sent all it is owed. */
  lemma BrokerSettles(s: Registry, k: seq<byte>, es: seq<Event>)
    requires s.clients == [] && RealDescriptors(es)
    ensures match Lookup(Run(s, es).clients, k)
            case None => LifeOf(k, es).Absent? && Expected(k, es) == []
            case Some(c) => Settled(k, c, LifeOf(k, es), Expected(k, es))
    ensures var r := Lookup(Run(s, es).clients, k);
            r.Some? && r.value.sock != OFFLINE ==> Frames(r.value.sent) == Expected(k, es)
  {
    RunIsSolo(s, k, es);
    StoreAndForward(k, es);
    var r := Lookup(Run(s, es).clients, k);
    if r.Some? && r.value.sock != OFFLINE {
      assert Frames(r.value.sent) + [] == Frames(r.value.sent);
    }
  }

  lemma {:induction false} OwedGrows<T>(k: seq<byte>, es: seq<Event>, what: seq<T>, i: nat)
    requires i <= |es| == |what|
    ensures Owed(k, es[..i], what[..i]) <= Owed(k, es, what)
    decreases |es|
  {
    hide LifeOf, CopiesDue;
    if i == |es| {
      assert es[..i] == es && what[..i] == what;
    } else {
      OwedGrows(k, Front(es), what[..|es| - 1], i);
      assert Front(es)[..i] == es[..i] && what[..|es| - 1][..i] == what[..i];
    }
  }

  /**
   No loss and no overtaking: the copies of publication `i` stand right after everything owed
   before it, wherever the client was online since.
   */
  lemma PublicationHasItsPlace(k: seq<byte>, es: seq<Event>, i: nat)
    requires i < |es| && es[i].Publish? && LifeOf(k, es[..i]).Present?
    ensures var l := LifeOf(k, es[..i]);
            Expected(k, es[..i]) + Repeat(es[i].frame, Copies(l.subs, es[i].topic, l.sock != OFFLINE))
            <= Expected(k, es)
  {
    OwedGrows(k, es, FramesIn(es), i + 1);
    assert FramesIn(es)[..i + 1] == FramesIn(es[..i + 1]);
    assert Front(es[..i + 1]) == es[..i] && Last(es[..i + 1]) == es[i];
    ExpectedAfter(k, es[..i + 1]);
  }

  /** Publication `i` put frame `f` in the client's way through a live entry. */
  ghost predicate Caused(k: seq<byte>, es: seq<Event>, i: nat, f: Frame)
    requires i < |es|
  {
    var l := LifeOf(k, es[..i]);
    && es[i].Publish? && es[i].frame == f && l.Present?
    && exists j :: 0 <= j < |l.subs| && Live(l.subs[j], es[i].topic, l.sock != OFFLINE)
  }

  /** Only subscribed messages: every frame owed was published while an entry for it was live. */
  lemma {:induction false} OnlySubscribedIsDelivered(k: seq<byte>, es: seq<Event>, f: Frame)
    requires f in Expected(k, es)
    ensures exists i: nat :: i < |es| && Caused(k, es, i, f)
  {
    var n := |es| - 1;
    assert es[..n] == Front(es);
    ExpectedAfter(k, es);
    if f in Expected(k, Front(es)) {
      OnlySubscribedIsDelivered(k, Front(es), f);
      var i: nat :| i < n && Caused(k, Front(es), i, f);
      assert Front(es)[..i] == es[..i];
      assert Caused(k, es, i, f);
    } else {
      var l := LifeOf(k, es[..n]);
      SomeCopyIffSomeLiveEntry(l.subs, es[n].topic, l.sock != OFFLINE);
      assert Caused(k, es, n, f);
    }
  }

  /** Sends only extend the stream, and go out on the session the client has afterwards. */
  lemma SendsUseTheCurrentSession(c: Client, e: Event)
    requires e.Identify? ==> e.fd != OFFLINE
    ensures c.sent <= Step(c, e).sent
    ensures forall i :: |c.sent| <= i < |Step(c, e).sent| ==>
              Step(c, e).sent[i].sock == Step(c, e).sock != OFFLINE
  {
    if e.Publish? {
      DeliverIsRepeat(c, e.topic, e.frame, |c.subs|);
    }
  }

  /** Stored frames stay as they were queued, later ones behind them, until a session takes them all. */
  lemma StoredFramesStay(c: Client, e: Event)
    requires e.Identify? ==> e.fd != OFFLINE
    ensures c.waiting <= Step(c, e).waiting ||
            (Step(c, e).sock != c.sock == OFFLINE && Step(c, e).waiting == [] &&
             Step(c, e).sent == c.sent + Replay(Step(c, e).sock, c.waiting))
  {
    if e.Publish? {
      DeliverIsRepeat(c, e.topic, e.frame, |c.subs|);
    }
  }

  // ---- one session ----

  predicate Online(l: Life) {
    l.Present? && l.sock != OFFLINE
  }

  /** The event that began the session a client is in. */
  function SessionStart(k: seq<byte>, es: seq<Event>): (i: nat)
    requires Online(LifeOf(k, es))
    ensures i < |es|
  {
    if Online(LifeOf(k, Front(es))) then SessionStart(k, Front(es)) else |es| - 1
  }

  function SentBy(c: Option<Client>): seq<Send> {
    match c case None => [] case Some(c) => c.sent
  }

  function WaitingOf(c: Option<Client>): seq<Frame> {
    match c case None => [] case Some(c) => c.waiting
  }

  lemma ReplayConcat(fd: int, a: seq<Frame>, b: seq<Frame>)
    ensures Replay(fd, a + b) == Replay(fd, a) + Replay(fd, b)
  {
  }

  /** While a client stays online, an event sends what it adds to the owed frames, on the same socket. */
  lemma LiveStep(c: Client, l: Life, e: Event)
    requires l == Present(c.sock, c.subs) && c.sock != OFFLINE && Online(LifeAfter(c.id, l, e))
    ensures Step(c, e).sock == c.sock && Step(c, e).sent == c.sent + Replay(c.sock, Due(l, e))
  {
    assert Replay(c.sock, []) == [];
    if e.Publish? {
      DeliverIsRepeat(c, e.topic, e.frame, |c.subs|);
      assert c.subs[..|c.subs|] == c.subs;
      var n := Copies(c.subs, e.topic, true);
      assert Replay(c.sock, Repeat(e.frame, n)) == Repeat(Send(c.sock, e.frame), n);
    }
  }

  /** The step that brings a client online sends its whole queue on the new socket, and owes nothing. */
  lemma FirstStep(k: seq<byte>, es: seq<Event>)
    requires RealDescriptors(es) && es != [] && Online(LifeOf(k, es)) && !Online(LifeOf(k, Front(es)))
    ensures Solo(k, es).Some? && Last(es) == Identify(Solo(k, es).value.sock, k)
    ensures Expected(k, es) == Expected(k, Front(es))
    ensures var was := Solo(k, Front(es));
            Solo(k, es).value.sent == SentBy(was) + Replay(Solo(k, es).value.sock, WaitingOf(was))
  {
    StoreAndForward(k, Front(es));
    StoreAndForward(k, es);
    ExpectedAfter(k, es);
    assert Expected(k, Front(es)) + [] == Expected(k, Front(es));
    hide Deliver, Unsubscribed, LeftBehind, Copies, Expected;
    assert Last(es).Identify?;
  }

  /** What a history owes a client beyond what its first `i` events did. */
  function OwedSince<T>(k: seq<byte>, es: seq<Event>, what: seq<T>, i: nat): (r: seq<T>)
    requires i <= |es| == |what|
    ensures Owed(k, es[..i], what[..i]) + r == Owed(k, es, what)
  {
    OwedGrows(k, es, what, i);
    Owed(k, es, what)[|Owed(k, es[..i], what[..i])|..]
  }

  /** Side by side, `x` and `y` came with the same publication. */
  ghost predicate Together<T, U>(es: seq<Event>, a: seq<T>, b: seq<U>, x: T, y: U)
    requires |a| == |b| == |es|
  {
    exists n :: 0 <= n < |es| && es[n].Publish? && a[n] == x && b[n] == y
  }

  /** Whatever is looked at, what is owed is owed for the same publications. */
  lemma {:induction false} OwedTogether<T, U>(k: seq<byte>, es: seq<Event>, a: seq<T>, b: seq<U>)
    requires |a| == |b| == |es|
    ensures |Owed(k, es, a)| == |Owed(k, es, b)|
    ensures forall m :: 0 <= m < |Owed(k, es, a)| ==> Together(es, a, b, Owed(k, es, a)[m], Owed(k, es, b)[m])
  {
    hide LifeOf, Copies;
    if es != [] {
      var n := |es| - 1;
      OwedTogether(k, Front(es), a[..n], b[..n]);
      forall m | 0 <= m < |Owed(k, es, a)|
        ensures Together(es, a, b, Owed(k, es, a)[m], Owed(k, es, b)[m])
      {
        if m < |Owed(k, Front(es), a[..n])| {
          var x, y := Owed(k, es, a)[m], Owed(k, es, b)[m];
          assert Together(Front(es), a[..n], b[..n], x, y);
          var i :| 0 <= i < n && Front(es)[i].Publish? && a[..n][i] == x && b[..n][i] == y;
          assert es[i].Publish? && a[i] == x && b[i] == y;
        } else {
          assert es[n].Publish? && a[n] == Owed(k, es, a)[m] && b[n] == Owed(k, es, b)[m];
        }
      }
    }
  }

  lemma {:induction false} OwedSinceTogether<T, U>(k: seq<byte>, es: seq<Event>, a: seq<T>, b: seq<U>, i: nat)
    requires i <= |es| == |a| == |b|
    ensures |OwedSince(k, es, a, i)| == |OwedSince(k, es, b, i)|
    ensures forall m :: 0 <= m < |OwedSince(k, es, a, i)| ==>
              Together(es, a, b, OwedSince(k, es, a, i)[m], OwedSince(k, es, b, i)[m])
  {
    hide Owed, Together;
    OwedTogether(k, es, a, b);
    OwedTogether(k, es[..i], a[..i], b[..i]);
    var n := |Owed(k, es[..i], a[..i])|;
    forall m | 0 <= m < |OwedSince(k, es, a, i)|
      ensures Together(es, a, b, OwedSince(k, es, a, i)[m], OwedSince(k, es, b, i)[m])
    {
      assert Together(es, a, b, Owed(k, es, a)[n + m], Owed(k, es, b)[n + m]);
    }
  }

  /**
   One session: since it began, exactly the queue of that moment and then everything owed since has
   been sent, in this order and on the session's socket alone.
   */
  lemma {:induction false} SessionIsReplayThenLive(k: seq<byte>, es: seq<Event>)
    requires RealDescriptors(es) && Online(LifeOf(k, es))
    ensures var i := SessionStart(k, es);
            var was, now := Solo(k, es[..i]), Solo(k, es);
            && now.Some? && es[i] == Identify(now.value.sock, k) && !Online(LifeOf(k, es[..i]))
            && now.value.sent ==
               SentBy(was) + Replay(now.value.sock, WaitingOf(was) + OwedSince(k, es, FramesIn(es), i))
  {
    var i, n := SessionStart(k, es), |es| - 1;
    var was := Solo(k, es[..i]);
    if !Online(LifeOf(k, Front(es))) {
      FirstStep(k, es);
      assert OwedSince(k, es, FramesIn(es), i) == [];
      assert WaitingOf(was) + [] == WaitingOf(was);
    } else {
      SessionIsReplayThenLive(k, Front(es));
      SessionContinues(k, es);
    }
  }

  /** One more event of a running session. */
  lemma SessionContinues(k: seq<byte>, es: seq<Event>)
    requires RealDescriptors(es) && es != [] && Online(LifeOf(k, es)) && Online(LifeOf(k, Front(es)))
    requires Solo(k, Front(es)).Some?
    requires var i, before := SessionStart(k, Front(es)), Front(es);
             var was, now := Solo(k, before[..i]), Solo(k, before).value;
             now.sent == SentBy(was) + Replay(now.sock, WaitingOf(was) + OwedSince(k, before, FramesIn(before), i))
    ensures var i := SessionStart(k, es);
            var was, now := Solo(k, es[..i]), Solo(k, es);
            && i == SessionStart(k, Front(es)) && es[i] == Front(es)[i] && es[..i] == Front(es)[..i]
            && now.Some? && now.value.sock == Solo(k, Front(es)).value.sock
            && now.value.sent ==
               SentBy(was) + Replay(now.value.sock, WaitingOf(was) + OwedSince(k, es, FramesIn(es), i))
  {
    var before, i := Front(es), SessionStart(k, es);
    assert before[..i] == es[..i];
    StoreAndForward(k, before);
    var c, due := Solo(k, before).value, Due(LifeOf(k, before), Last(es));
    LiveStep(c, LifeOf(k, before), Last(es));
    hide Step, Due, Expected, LifeOf, OwedSince, LifeAfter;
    OwedSinceGrows(k, es, i);
    var was := Solo(k, before[..i]);
    Lengthened(SentBy(was), c.sock, WaitingOf(was), OwedSince(k, before, FramesIn(before), i), due);
  }

  lemma Lengthened(sent: seq<Send>, sock: int, missed: seq<Frame>, since: seq<Frame>, due: seq<Frame>)
    ensures sent + Replay(sock, missed + since) + Replay(sock, due) == sent + Replay(sock, missed + (since + due))
  {
    ReplayConcat(sock, missed + since, due);
    assert missed + since + due == missed + (since + due);
    hide Replay;
    var a, b := Replay(sock, missed + since), Replay(sock, due);
    assert sent + a + b == sent + (a + b);
  }

  lemma OwedSinceGrows(k: seq<byte>, es: seq<Event>, i: nat)
    requires i < |es|
    ensures OwedSince(k, es, FramesIn(es), i) ==
            OwedSince(k, Front(es), FramesIn(Front(es)), i) + Due(LifeOf(k, Front(es)), Last(es))
  {
    hide LifeOf, Owed, Due;
    ExpectedAfter(k, es);
    assert FramesIn(es)[..i] == FramesIn(es[..i]) == FramesIn(Front(es))[..i];
    assert Front(es)[..i] == es[..i];
  }

  /** How much of the history had passed when the client was last online. */
  function LastOnline(k: seq<byte>, es: seq<Event>): (j: nat)
    ensures j <= |es|
  {
    if es == [] then 0 else if Online(LifeOf(k, es)) then |es| else LastOnline(k, Front(es))
  }

  lemma NothingSentOffline(c: Client, e: Event)
    requires (e.Identify? ==> e.fd != OFFLINE) && Step(c, e).sock == OFFLINE
    ensures Step(c, e).sent == c.sent
  {
    if e.Publish? {
      DeliverIsRepeat(c, e.topic, e.frame, |c.subs|);
    }
  }

  /** All a client has been sent is what it was owed when it was last online. */
  lemma {:induction false} SentUpToLastOnline(k: seq<byte>, es: seq<Event>)
    requires RealDescriptors(es)
    ensures Frames(SentBy(Solo(k, es))) == Expected(k, es[..LastOnline(k, es)])
  {
    StoreAndForward(k, es);
    if es != [] {
      if Online(LifeOf(k, es)) {
        assert es[..|es|] == es;
        assert Frames(SentBy(Solo(k, es))) + [] == Frames(SentBy(Solo(k, es)));
      } else {
        SentUpToLastOnline(k, Front(es));
        assert Front(es)[..LastOnline(k, es)] == es[..LastOnline(k, es)];
        if Solo(k, Front(es)).Some? {
          NothingSentOffline(Solo(k, Front(es)).value, Last(es));
        }
      }
    }
  }

  /** The event up to which the sessions before the current one had brought the client. */
  function CaughtUp(k: seq<byte>, es: seq<Event>): (j: nat)
    requires Online(LifeOf(k, es))
    ensures j <= SessionStart(k, es)
  {
    LastOnline(k, es[..SessionStart(k, es)])
  }

  /** What has been sent in the session a client is in: everything sent since just before it began. */
  function SessionSends(k: seq<byte>, es: seq<Event>): seq<Send>
    requires RealDescriptors(es) && Online(LifeOf(k, es))
  {
    SessionIsReplayThenLive(k, es);
    Solo(k, es).value.sent[|SentBy(Solo(k, es[..SessionStart(k, es)]))|..]
  }

  /** A session goes out on its socket, and is what was owed since the client was last online before. */
  lemma {:induction false} SessionIsOwed(k: seq<byte>, es: seq<Event>)
    requires RealDescriptors(es) && Online(LifeOf(k, es))
    ensures forall m :: 0 <= m < |SessionSends(k, es)| ==> SessionSends(k, es)[m].sock == LifeOf(k, es).sock
    ensures Frames(SessionSends(k, es)) == OwedSince(k, es, FramesIn(es), CaughtUp(k, es))
  {
    hide LifeOf, Owed, Step;
    SessionIsReplayThenLive(k, es);
    StoreAndForward(k, es);
    var i, j, now := SessionStart(k, es), CaughtUp(k, es), Solo(k, es).value;
    var n := |SentBy(Solo(k, es[..i]))|;
    SentUpToLastOnline(k, es[..i]);
    assert es[..i][..j] == es[..j] && FramesIn(es[..j]) == FramesIn(es)[..j];
    assert Frames(now.sent) + [] == Frames(now.sent);
    assert Frames(now.sent[n..]) == Frames(now.sent)[n..];
  }

  /** A session begins with what the step to it sends and grows by what the later steps send. */
  lemma {:induction false} SessionAfter(k: seq<byte>, es: seq<Event>)
    requires RealDescriptors(es) && es != [] && Online(LifeOf(k, es))
    ensures var was := Solo(k, Front(es));
            var more := if was.Some? then NewSends(was.value, Last(es)) else [];
            if Online(LifeOf(k, Front(es)))
            then was.Some? && SessionSends(k, es) == SessionSends(k, Front(es)) + more
            else SessionSends(k, es) == more
  {
    var was, i := Solo(k, Front(es)), SessionStart(k, es);
    assert Front(es)[..i] == es[..i];
    hide LifeOf, Online, Step, Replay, OwedSince;
    SessionIsReplayThenLive(k, es);
    SentAfter(k, es);
    if Online(LifeOf(k, Front(es))) {
      SessionIsReplayThenLive(k, Front(es));
      var n, more := |SentBy(Solo(k, es[..i]))|, NewSends(was.value, Last(es));
      hide Solo, NewSends;
      GrownFrom(was.value.sent, more, n);
    }
  }

  lemma SentAfter(k: seq<byte>, es: seq<Event>)
    requires es != [] && Solo(k, es).Some?
    ensures var was := Solo(k, Front(es));
            SentBy(Solo(k, es)) == SentBy(was) + if was.Some? then NewSends(was.value, Last(es)) else []
  {
    hide Step, NewSends;
    if Solo(k, Front(es)).Some? {
      SentIsAppended(Solo(k, Front(es)).value, Last(es));
    }
  }

  lemma SentIsAppended(c: Client, e: Event)
    ensures Step(c, e).sent == c.sent + NewSends(c, e)
  {
    hide Step;
  }

  lemma GrownFrom(a: seq<Send>, x: seq<Send>, n: nat)
    requires n <= |a|
    ensures (a + x)[n..] == a[n..] + x
  {
  }

  // ---- one entry, and two ----

  /** An entry yields a copy if it names the topic and its client is online or asked with flag 1. */
  lemma {:induction false} OneEntryIsDueIff(sock: int, s: Sub, e: Event)
    requires e.Publish?
    ensures CopiesDue(Present(sock, [s]), e) == if s.topic == e.topic && (sock != -1 || s.sf == 1) then 1 else 0
    ensures CopiesDue(Absent, e) == 0
  {
    assert Copies([s][1..], e.topic, sock != OFFLINE) == 0;
  }

  /** Entries stand newest first, and outlive the session they were made in. */
  lemma {:induction false} EntriesOutliveSessions(fd: int, fd': int, k: seq<byte>, a: Sub, b: Sub)
    requires fd != OFFLINE
    ensures var es := [Identify(fd, k), Subscribe(fd, a.topic, a.sf), Subscribe(fd, b.topic, b.sf), Disconnect(fd)];
            && LifeOf(k, es) == Present(-1, [b, a])
            && LifeOf(k, es + [Identify(fd', k)]) == Present(fd', [b, a])
  {
    var one := [Identify(fd, k)];
    var two := one + [Subscribe(fd, a.topic, a.sf)];
    var three := two + [Subscribe(fd, b.topic, b.sf)];
    var es := three + [Disconnect(fd)];
    assert es == [Identify(fd, k), Subscribe(fd, a.topic, a.sf), Subscribe(fd, b.topic, b.sf), Disconnect(fd)];
    assert Front(one) == [] && Front(two) == one && Front(three) == two && Front(es) == three;
    assert Front(es + [Identify(fd', k)]) == es;
    assert LifeOf(k, one) == Present(fd, []);
    assert LifeOf(k, two) == Present(fd, [a]);
    assert LifeOf(k, three) == Present(fd, [b, a]);
  }

  // ---- a run on which unsubscribing leaves an entry ----

  /** Subscribed twice and unsubscribed once: one entry stays, and the client goes on receiving. */
  lemma {:induction false} SecondSubscriptionStays(fd: int, k: seq<byte>, topic: seq<byte>, frame: Frame)
    requires fd != OFFLINE
    ensures var es := [Identify(fd, k), Subscribe(fd, topic, 1), Subscribe(fd, topic, 1), Unsubscribe(fd, topic)];
            && LifeOf(k, es) == Present(fd, [Sub(topic, 1)])
            && Due(LifeOf(k, es), Publish(topic, frame)) == [frame]
  {
    var a := [Identify(fd, k)];
    var b := a + [Subscribe(fd, topic, 1)];
    var c := b + [Subscribe(fd, topic, 1)];
    var es := c + [Unsubscribe(fd, topic)];
    var s := Sub(topic, 1);
    assert es == [Identify(fd, k), Subscribe(fd, topic, 1), Subscribe(fd, topic, 1), Unsubscribe(fd, topic)];
    assert Front(a) == [] && Front(b) == a && Front(c) == b && Front(es) == c;
    assert LifeOf(k, a) == Present(fd, []);
    assert LifeOf(k, b) == Present(fd, [s]);
    assert LifeOf(k, c) == Present(fd, [s, s]);
    UnsubscribeHalvesRuns([s, s], topic);
    UnsubscribedIsSkim([s, s], topic);
    assert LifeOf(k, es) == Present(fd, [s]);
    assert Copies([s], topic, true) == 1 + Copies([s][1..], topic, true) && [s][1..] == [];
    assert Repeat(frame, 1) == [frame];
  }

  // ---- noninterference ----

  /** The event is a publication or part of this client's own sessions. */
  predicate Concerns(k: seq<byte>, l: Life, e: Event) {
    match e
    case Publish(_, _) => true
    case Identify(_, id) => id == k
    case Subscribe(fd, _, _) => l.Present? && l.sock == fd
    case Unsubscribe(fd, _) => l.Present? && l.sock == fd
    case Disconnect(fd) => l.Present? && l.sock == fd
    case _ => false
  }

  /** The history without the other clients. */
  function Own(k: seq<byte>, es: seq<Event>): seq<Event> {
    if es == [] then []
    else Own(k, Front(es)) + if Concerns(k, LifeOf(k, Front(es)), Last(es)) then [Last(es)] else []
  }

  lemma {:induction false} SoloIgnoresOthers(k: seq<byte>, es: seq<Event>)
    ensures Solo(k, Own(k, es)) == Solo(k, es)
    ensures LifeOf(k, Own(k, es)) == LifeOf(k, es)
    ensures match Solo(k, es) case None => LifeOf(k, es).Absent?
            case Some(c) => LifeOf(k, es) == Present(c.sock, c.subs) && c.id == k
  {
    if es != [] {
      SoloIgnoresOthers(k, Front(es));
      var own := Own(k, Front(es));
      if Solo(k, Front(es)).Some? && Last(es).Unsubscribe? {
        UnsubscribeHalvesRuns(Solo(k, Front(es)).value.subs, Last(es).topic);
      }
      if Solo(k, Front(es)).Some? && Last(es).Publish? {
        var c := Solo(k, Front(es)).value;
        assert Step(c, Last(es)).sock == c.sock && Step(c, Last(es)).subs == c.subs;
      }
      if Concerns(k, LifeOf(k, Front(es)), Last(es)) {
        assert Front(own + [Last(es)]) == own && Last(own + [Last(es)]) == Last(es);
      } else {
        assert own + [] == own;
      }
    }
  }

  /**
   Noninterference: a client's socket, subscriptions, queue and stream are those of a broker that
   saw only its own events and the publications.
   */
  lemma {:induction false} Noninterference(s: Registry, k: seq<byte>, es: seq<Event>)
    requires s.clients == []
    ensures Lookup(Run(s, es).clients, k) == Lookup(Run(s, Own(k, es)).clients, k)
  {
    RunIsSolo(s, k, es);
    RunIsSolo(s, k, Own(k, es));
    SoloIgnoresOthers(k, es);
  }

  /** So two runs that agree on them agree on the client, however the others differ. */
  lemma {:induction false} SameOwnHistorySameClient(
    s: Registry, s': Registry, k: seq<byte>, es: seq<Event>, es': seq<Event>)
    requires s.clients == [] && s'.clients == []
    requires Own(k, es) == Own(k, es')
    ensures Lookup(Run(s, es).clients, k) == Lookup(Run(s', es').clients, k)
  {
    RunIsSolo(s, k, es);
    RunIsSolo(s', k, es');
    SoloIgnoresOthers(k, es);
    SoloIgnoresOthers(k, es');
  }
}
