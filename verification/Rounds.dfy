/** One turn of the select loop: which ready descriptors the scan dispatches, and in what order. */
module Rounds {
  import opened Broker
  import opened Dispatch

  /** The descriptors of `ready` below `n`, in the order of the scan. */
  function Ascending(ready: set<int>, n: int): (r: seq<int>)
    ensures forall i :: 0 <= i < |r| ==> r[i] in ready && 0 <= r[i] < n
    decreases if n < 0 then 0 else n
  {
    if n <= 0 then [] else Ascending(ready, n - 1) + if n - 1 in ready then [n - 1] else []
  }

  predicate Increasing(s: seq<int>) {
    forall i, j :: 0 <= i < j < |s| ==> s[i] < s[j]
  }

  lemma IncreasingOneMore(s: seq<int>, x: int)
    requires Increasing(s) && forall i :: 0 <= i < |s| ==> s[i] < x
    ensures Increasing(s + [x])
  {
  }

  /** Each once and ascending, */
  lemma {:induction false} ScanIsIncreasing(ready: set<int>, n: nat)
    ensures Increasing(Ascending(ready, n))
  {
    if n > 0 {
      ScanIsIncreasing(ready, n - 1);
      IncreasingOneMore(Ascending(ready, n - 1), n - 1);
    }
  }

  /** and none left out below the bound. */
  lemma {:induction false} ScanIsComplete(ready: set<int>, n: nat, fd: int)
    requires fd in ready && 0 <= fd < n
    ensures fd in Ascending(ready, n)
  {
    if fd < n - 1 {
      ScanIsComplete(ready, n - 1, fd);
    } else {
      assert Ascending(ready, n)[|Ascending(ready, n - 1)|] == fd;
    }
  }

  /** What select reports ready and what the calls on those descriptors return. */
  datatype Round = Round(ready: set<int>, inputs: map<int, Input>)

  /** Each ready descriptor has its kind of input; standard input, which ends the process, has none. */
  predicate Proper(s: Server, r: Round)
    ensures Proper(s, r) ==> Supplied(r)
  {
    && Supplied(r) && r.ready <= s.reg.active && 0 !in r.ready
    && s.tcp != s.udp
    && forall fd :: fd in r.ready ==>
      if fd == s.tcp then r.inputs[fd].Connection?
      else if fd == s.udp then r.inputs[fd].Arrived?
      else r.inputs[fd].Received? && r.inputs[fd].fd == fd
  }

  /** No open descriptor lies above fdClients. */
  predicate Bounded(s: Registry) {
    forall fd :: fd in s.active ==> fd <= s.fdClients
  }

  lemma HandleStaysBounded(s: Registry, e: Event)
    requires Bounded(s)
    ensures Bounded(Handle(s, e))
  {
  }

  lemma {:induction false} ServeStaysBounded(s: Server, ins: seq<Input>)
    requires Sound(s) && Shapes(ins) && Bounded(s.reg)
    ensures Bounded(Serve(s, ins).reg)
  {
    if ins != [] {
      ServeStaysBounded(s, ins[..|ins| - 1]);
      var t := Serve(s, ins[..|ins| - 1]);
      HandleStaysBounded(t.reg, EventOf(t, ins[|ins| - 1]));
    }
  }

  predicate Supplied(r: Round) {
    r.ready <= r.inputs.Keys && forall fd :: fd in r.ready ==> Shape(r.inputs[fd])
  }

  /** The inputs of a round as the scan meets them: a cleared buffer, then the ready descriptors below `n`. */
  function Script(r: Round, n: int): (ins: seq<Input>)
    requires Supplied(r)
    ensures Shapes(ins)
    decreases if n < 0 then 0 else n
  {
    if n <= 0 then [Wake]
    else Script(r, n - 1) + if n - 1 in r.ready then [r.inputs[n - 1]] else []
  }

  /** The scan's order is the order of the inputs. */
  lemma {:induction false} ScriptFollowsTheScan(r: Round, n: nat)
    requires Supplied(r)
    ensures |Script(r, n)| == 1 + |Ascending(r.ready, n)|
    ensures forall i :: 0 <= i < |Ascending(r.ready, n)| ==> Script(r, n)[i + 1] == r.inputs[Ascending(r.ready, n)[i]]
  {
    if n > 0 {
      ScriptFollowsTheScan(r, n - 1);
    }
  }

  lemma ServeOneMoreDescriptor(s: Server, r: Round, fd: nat)
    requires Sound(s) && Supplied(r)
    ensures Serve(s, Script(r, fd + 1)) ==
            if fd in r.ready then React(Serve(s, Script(r, fd)), r.inputs[fd]) else Serve(s, Script(r, fd))
  {
    var ins := Script(r, fd);
    if fd in r.ready {
      assert (ins + [r.inputs[fd]])[..|ins|] == ins;
    } else {
      assert ins + [] == ins;
    }
  }

  lemma RoundStarts(s: Server, r: Round)
    requires Sound(s) && Supplied(r)
    ensures Serve(s, Script(r, 0)) == React(s, Wake)
    ensures React(s, Wake).reg.fdClients == s.reg.fdClients
  {
    assert [Wake][..0] == [];
  }

  lemma {:induction false} RoundEnds(s: Server, r: Round, fd: int)
    requires Sound(s) && Proper(s, r) && Bounded(s.reg) && s.reg.fdClients >= 0 && fd > s.reg.fdClients
    ensures Serve(s, Script(r, fd)) == AfterRound(s, r)
  {
    hide Serve;
    NothingAbove(r, s.reg.fdClients + 1, fd - s.reg.fdClients - 1);
  }

  lemma {:induction false} NothingAbove(r: Round, n: nat, m: nat)
    requires Supplied(r) && forall fd :: fd in r.ready ==> fd < n
    ensures Script(r, n + m) == Script(r, n)
    decreases m
  {
    if m > 0 {
      NothingAbove(r, n, m - 1);
      assert Script(r, n + m - 1) + [] == Script(r, n + m - 1);
    }
  }

  /** The server after a whole round. */
  function AfterRound(s: Server, r: Round): (t: Server)
    requires Sound(s) && Supplied(r)
    ensures Sound(t)
  {
    Serve(s, Script(r, s.reg.fdClients + 1))
  }

  /**
   A round is complete and fresh: every ready descriptor is served exactly once, in ascending order,
   and none that was closed when the round began is, even if it is accepted during the round.
   */
  lemma RoundIsCompleteAndFresh(s: Server, r: Round)
    requires Sound(s) && Bounded(s.reg) && Proper(s, r) && forall fd :: fd in r.ready ==> fd >= 0
    ensures var order := Ascending(r.ready, s.reg.fdClients + 1);
            && (forall fd :: fd in r.ready <==> fd in order)
            && Increasing(order)
            && (forall fd :: fd !in s.reg.active ==> fd !in order)
    ensures Bounded(AfterRound(s, r).reg)
  {
    var n := s.reg.fdClients + 1;
    if n >= 0 {
      ScanIsIncreasing(r.ready, n);
      forall fd | fd in r.ready ensures fd in Ascending(r.ready, n) {
        ScanIsComplete(r.ready, n, fd);
      }
    }
    ServeStaysBounded(s, Script(r, n));
  }

  // ---- runs of rounds ----

  predicate AllSupplied(rs: seq<Round>) {
    forall n :: 0 <= n < |rs| ==> Supplied(rs[n])
  }

  function AfterRounds(s: Server, rs: seq<Round>): (t: Server)
    requires Sound(s) && AllSupplied(rs)
    ensures Sound(t)
  {
    if rs == [] then s else AfterRound(AfterRounds(s, rs[..|rs| - 1]), rs[|rs| - 1])
  }

  function Scripts(s: Server, rs: seq<Round>): (ins: seq<Input>)
    requires Sound(s) && AllSupplied(rs)
    ensures Shapes(ins)
  {
    if rs == [] then []
    else
      var before := rs[..|rs| - 1];
      Scripts(s, before) + Script(rs[|rs| - 1], AfterRounds(s, before).reg.fdClients + 1)
  }

  /** The rounds of a run, one after the other, are one run on all their inputs. */
  lemma {:induction false} RoundsAreOneRun(s: Server, rs: seq<Round>)
    requires Sound(s) && AllSupplied(rs)
    ensures AfterRounds(s, rs) == Serve(s, Scripts(s, rs))
  {
    if rs != [] {
      var before := rs[..|rs| - 1];
      RoundsAreOneRun(s, before);
      ServeConcat(s, Scripts(s, before), Script(rs[|rs| - 1], AfterRounds(s, before).reg.fdClients + 1));
    }
  }

  /** Each round reports what select can report in the state it begins in. */
  predicate ProperRun(s: Server, rs: seq<Round>)
    requires Sound(s) && AllSupplied(rs)
  {
    forall n :: 0 <= n < |rs| ==> Proper(AfterRounds(s, rs[..n]), rs[n])
  }

  lemma {:induction false} RunStaysBounded(s: Server, rs: seq<Round>)
    requires Sound(s) && AllSupplied(rs) && Bounded(s.reg)
    ensures Bounded(AfterRounds(s, rs).reg) && AfterRounds(s, rs).reg.fdClients >= s.reg.fdClients
  {
    RoundsAreOneRun(s, rs);
    ServeStaysBounded(s, Scripts(s, rs));
    BoundOnlyGrows(s, Scripts(s, rs));
  }

  lemma {:induction false} BoundOnlyGrows(s: Server, ins: seq<Input>)
    requires Sound(s) && Shapes(ins)
    ensures Serve(s, ins).reg.fdClients >= s.reg.fdClients
  {
    if ins != [] {
      BoundOnlyGrows(s, ins[..|ins| - 1]);
    }
  }

  lemma {:induction false} OneMoreRound(s: Server, rs: seq<Round>, n: nat)
    requires Sound(s) && AllSupplied(rs) && ProperRun(s, rs) && n < |rs|
    ensures Proper(AfterRounds(s, rs[..n]), rs[n])
    ensures AfterRounds(s, rs[..n + 1]) == AfterRound(AfterRounds(s, rs[..n]), rs[n])
  {
    assert rs[..n + 1][..n] == rs[..n];
  }

  // ---- from the start of the server ----

  predicate RealOpen(s: Registry) {
    forall fd :: fd in s.active ==> fd >= 0
  }

  /** The started server scans up to the higher of its own two descriptors, which are open. */
  lemma {:induction false} BootIsBounded(tcp: int, udp: int)
    requires tcp >= 0 && udp >= 0
    ensures var r := Boot(tcp, udp).reg; Bounded(r) && RealOpen(r) && r.fdClients >= 0
    ensures Boot(tcp, udp).reg.fdClients == tcp || Boot(tcp, udp).reg.fdClients == udp
  {
  }

  /** The bound is where the run began or a descriptor accepted since: with Bounded, the highest of all. */
  lemma {:induction false} BoundIsReached(s: Server, ins: seq<Input>)
    requires Sound(s) && Shapes(ins)
    ensures var top := Serve(s, ins).reg.fdClients; top == s.reg.fdClients || Connection(top) in ins
  {
    if ins != [] {
      var before := ins[..|ins| - 1];
      BoundIsReached(s, before);
      assert ins == before + [ins[|ins| - 1]];
    }
  }

  lemma {:induction false} ServeStaysReal(s: Server, ins: seq<Input>)
    requires Sound(s) && Shapes(ins) && RealOpen(s.reg)
    ensures RealOpen(Serve(s, ins).reg)
  {
    if ins != [] {
      ServeStaysReal(s, ins[..|ins| - 1]);
    }
  }

  /** What one round owes: all ready descriptors, each once and ascending, after the buffer is cleared. */
  ghost predicate ServesAll(s: Server, r: Round)
    requires Sound(s) && Supplied(r)
  {
    var order, script := Ascending(r.ready, s.reg.fdClients + 1), Script(r, s.reg.fdClients + 1);
    && (forall fd :: fd in r.ready <==> fd in order) && Increasing(order)
    && |script| == 1 + |order| && script[0] == Wake
    && (forall i :: 0 <= i < |order| ==> script[i + 1] == r.inputs[order[i]])
    && AfterRound(s, r) == Serve(s, script)
  }

  /** On every run of select rounds of a started server, each round serves every descriptor that is ready. */
  lemma {:induction false} EveryRoundServesAll(tcp: int, udp: int, rs: seq<Round>, n: nat)
    requires tcp >= 0 && udp >= 0 && AllSupplied(rs) && ProperRun(Boot(tcp, udp), rs) && n < |rs|
    ensures ServesAll(AfterRounds(Boot(tcp, udp), rs[..n]), rs[n])
  {
    StartedServer(tcp, udp, rs, n);
    RoundServesAll(AfterRounds(Boot(tcp, udp), rs[..n]), rs[n]);
  }

  /** What holds of a started server at the beginning of every round. */
  lemma {:induction false} StartedServer(tcp: int, udp: int, rs: seq<Round>, n: nat)
    requires tcp >= 0 && udp >= 0 && AllSupplied(rs) && ProperRun(Boot(tcp, udp), rs) && n < |rs|
    ensures var s := AfterRounds(Boot(tcp, udp), rs[..n]);
            && Proper(s, rs[n]) && Bounded(s.reg) && RealOpen(s.reg) && s.reg.fdClients >= 0
    ensures AfterRounds(Boot(tcp, udp), rs[..n + 1]) == AfterRound(AfterRounds(Boot(tcp, udp), rs[..n]), rs[n])
  {
    BootIsBounded(tcp, udp);
    hide Boot, Proper, Bounded, RealOpen, AfterRounds, AfterRound, Serve, Script, Scripts;
    var s0 := Boot(tcp, udp);
    RunStaysBounded(s0, rs[..n]);
    RoundsAreOneRun(s0, rs[..n]);
    ServeStaysReal(s0, Scripts(s0, rs[..n]));
    OneMoreRound(s0, rs, n);
  }

  lemma {:induction false} RoundServesAll(s: Server, r: Round)
    requires Sound(s) && Proper(s, r) && Bounded(s.reg) && RealOpen(s.reg) && s.reg.fdClients >= 0
    ensures ServesAll(s, r)
  {
    hide Ascending, Script, Increasing, Serve;
    RoundIsCompleteAndFresh(s, r);
    ScriptFollowsTheScan(r, s.reg.fdClients + 1);
    ScriptBeginsCleared(r, s.reg.fdClients + 1);
  }

  /** A descriptor accepted in a round is open, and within the bound of the next scan, when the round ends. */
  lemma {:induction false} AcceptedIsOpen(tcp: int, udp: int, rs: seq<Round>, n: nat, fd: int)
    requires tcp >= 0 && udp >= 0 && AllSupplied(rs) && ProperRun(Boot(tcp, udp), rs) && n < |rs|
    requires tcp in rs[n].ready && rs[n].inputs[tcp] == Connection(fd)
    requires fd !in AfterRounds(Boot(tcp, udp), rs[..n]).reg.active
    ensures var t := AfterRounds(Boot(tcp, udp), rs[..n + 1]); fd in t.reg.active && 0 <= fd <= t.reg.fdClients
  {
    var s0 := Boot(tcp, udp);
    assert s0.tcp == tcp;
    hide Boot, Proper, Bounded, RealOpen, AfterRounds, AfterRound, ProperRun;
    StartedServer(tcp, udp, rs, n);
    SameListeners(s0, rs[..n]);
    RoundAccepts(AfterRounds(s0, rs[..n]), rs[n], fd);
  }

  lemma {:induction false} RoundAccepts(s: Server, r: Round, fd: int)
    requires Sound(s) && Proper(s, r) && Bounded(s.reg) && s.tcp >= 0
    requires s.tcp in r.ready && r.inputs[s.tcp] == Connection(fd) && fd !in s.reg.active
    ensures fd in AfterRound(s, r).reg.active && 0 <= fd <= AfterRound(s, r).reg.fdClients
  {
    AcceptedInScan(s, r, s.reg.fdClients + 1);
    RoundStaysBounded(s, r);
  }

  lemma {:induction false} RoundStaysBounded(s: Server, r: Round)
    requires Sound(s) && Supplied(r) && Bounded(s.reg)
    ensures Bounded(AfterRound(s, r).reg)
  {
    ServeStaysBounded(s, Script(r, s.reg.fdClients + 1));
  }

  lemma {:induction false} SameListeners(s: Server, rs: seq<Round>)
    requires Sound(s) && AllSupplied(rs)
    ensures AfterRounds(s, rs).tcp == s.tcp && AfterRounds(s, rs).udp == s.udp
  {
    RoundsAreOneRun(s, rs);
    ServeKeepsListeners(s, Scripts(s, rs));
  }

  lemma {:induction false} ServeKeepsListeners(s: Server, ins: seq<Input>)
    requires Sound(s) && Shapes(ins)
    ensures Serve(s, ins).tcp == s.tcp && Serve(s, ins).udp == s.udp
  {
    if ins != [] {
      ServeKeepsListeners(s, ins[..|ins| - 1]);
    }
  }

  /** From the accepting place of the scan on, nothing closes the new descriptor. */
  lemma {:induction false} AcceptedInScan(s: Server, r: Round, n: nat)
    requires Sound(s) && Proper(s, r) && s.tcp in r.ready && r.inputs[s.tcp].fd !in s.reg.active
    ensures s.tcp < n && s.tcp >= 0 ==> r.inputs[s.tcp].fd in Serve(s, Script(r, n)).reg.active
  {
    hide Serve, Script;
    if 0 <= s.tcp < n {
      var fd := n - 1;
      AcceptedInScan(s, r, fd);
      ServeOneMoreDescriptor(s, r, fd);
      if fd in r.ready {
        StaysOpen(Serve(s, Script(r, fd)), r.inputs[fd], r.inputs[s.tcp].fd);
      }
    }
  }

  lemma StaysOpen(t: Server, i: Input, fd: int)
    requires Sound(t) && Shape(i) && !(i.Received? && i.fd == fd)
    ensures fd in t.reg.active || i == Connection(fd) ==> fd in React(t, i).reg.active
  {
  }

  lemma {:induction false} ScriptBeginsCleared(r: Round, n: int)
    requires Supplied(r)
    ensures Script(r, n) != [] && Script(r, n)[0] == Wake
    decreases if n < 0 then 0 else n
  {
    if n > 0 {
      ScriptBeginsCleared(r, n - 1);
    }
  }
}
