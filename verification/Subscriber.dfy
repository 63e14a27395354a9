/** The subscriber's receive loop (subscriber.c), fed with what successive recv calls return. */
module Subscriber {
  import opened Bytes
  import opened Broker
  import opened Wire
  import opened Messages

  predicate Chunk(c: seq<byte>) {
    |c| <= BUFFER_CLIENT_LEN
  }

  predicate Chunks(cs: seq<seq<byte>>) {
    forall i :: 0 <= i < |cs| ==> Chunk(cs[i])
  }

  /**
   The buffers handed to processMessage: a chunk without a separator is overwritten by the next
   one, a chunk with one is handed on over whatever is left of those before it.
   */
  function Handed(cs: seq<seq<byte>>, buf: seq<byte>): (r: seq<seq<byte>>)
    requires Chunks(cs) && |buf| == BUFFER_CLIENT_LEN
    ensures forall i :: 0 <= i < |r| ==> |r[i]| == BUFFER_CLIENT_LEN
  {
    if cs == [] || cs[0] == [] then []
    else
      var b := Overlay(buf, cs[0]);
      if CR in cs[0] then [b] + Handed(cs[1..], Zeros(BUFFER_CLIENT_LEN)) else Handed(cs[1..], b)
  }

  function DecodeAll(bufs: seq<seq<byte>>): (r: seq<Output>)
    requires forall i :: 0 <= i < |bufs| ==> |bufs[i]| == BUFFER_CLIENT_LEN
    ensures |r| == |bufs|
    ensures forall i :: 0 <= i < |bufs| ==> r[i] == Decode(bufs[i])
  {
    seq(|bufs|, i requires 0 <= i < |bufs| => Decode(bufs[i]))
  }

  method HasSeparator(recvBuffer: array<byte>, size: nat) returns (found: bool)
    requires size <= recvBuffer.Length
    ensures found <==> CR in recvBuffer[..size]
  {
    found := false;
    for i := 0 to size
      invariant CR !in recvBuffer[..i]
    {
      if recvBuffer[i] == CR {
        return true;
      }
    }
  }

  /** One wake-up: receive until a separator shows up, then copy the buffer for decoding. */
  method ReceiveOne(cs: seq<seq<byte>>, recvBuffer: array<byte>, sendBuffer: array<byte>)
    returns (complete: bool, next: nat)
    requires Chunks(cs) && recvBuffer != sendBuffer
    requires recvBuffer.Length == sendBuffer.Length == BUFFER_CLIENT_LEN
    modifies recvBuffer, sendBuffer
    ensures next <= |cs|
    ensures complete ==> next > 0
    ensures complete ==> Handed(cs, Zeros(BUFFER_CLIENT_LEN)) ==
                         [sendBuffer[..]] + Handed(cs[next..], Zeros(BUFFER_CLIENT_LEN))
    ensures !complete ==> Handed(cs, Zeros(BUFFER_CLIENT_LEN)) == []
  {
    Clear(recvBuffer, recvBuffer.Length);
    assert recvBuffer[..] == Zeros(BUFFER_CLIENT_LEN);
    next := 0;
    while true
      invariant next <= |cs|
      invariant Handed(cs, Zeros(BUFFER_CLIENT_LEN)) == Handed(cs[next..], recvBuffer[..])
      decreases |cs| - next
    {
      if next == |cs| || cs[next] == [] {
        return false, next;
      }
      var chunk := cs[next];
      ghost var was, rest := recvBuffer[..], cs[next..];
      Memcpy(recvBuffer, 0, chunk);
      assert recvBuffer[..] == Overlay(was, chunk);
      next := next + 1;
      assert rest[0] == chunk && rest[1..] == cs[next..];
      var found := HasSeparator(recvBuffer, |chunk|);
      assert recvBuffer[..|chunk|] == chunk;
      if found {
        Memcpy(sendBuffer, 0, recvBuffer[..]);
        assert sendBuffer[..] == recvBuffer[..];
        return true, next;
      }
    }
  }

  /** The subscriber's main loop on all it ever receives. */
  method Receive(cs: seq<seq<byte>>, recvBuffer: array<byte>, sendBuffer: array<byte>)
    returns (printed: seq<Output>)
    requires Chunks(cs) && recvBuffer != sendBuffer
    requires recvBuffer.Length == sendBuffer.Length == BUFFER_CLIENT_LEN
    modifies recvBuffer, sendBuffer
    ensures printed == DecodeAll(Handed(cs, Zeros(BUFFER_CLIENT_LEN)))
  {
    hide Handed, Decode, Zeros;
    printed := [];
    var rest := cs;
    ghost var given: seq<seq<byte>> := [];
    while true
      invariant Chunks(rest)
      invariant forall i :: 0 <= i < |given| ==> |given[i]| == BUFFER_CLIENT_LEN
      invariant Handed(cs, Zeros(BUFFER_CLIENT_LEN)) == given + Handed(rest, Zeros(BUFFER_CLIENT_LEN))
      invariant printed == DecodeAll(given)
      decreases |rest|
    {
      var complete, next := ReceiveOne(rest, recvBuffer, sendBuffer);
      if !complete {
        assert given + [] == given;
        return;
      }
      var line := ProcessMessage(sendBuffer);
      rest := rest[next..];
      printed := printed + [line];
      given := given + [sendBuffer[..]];
    }
  }

  // ---- arbitrary chunks ----

  /** `b` is byte `k` of the last chunk that has one, and `otherwise` if none has. */
  ghost predicate FromLast(b: byte, cs: seq<seq<byte>>, k: nat, otherwise: byte) {
    || (exists n :: 0 <= n < |cs| && k < |cs[n]| && cs[n][k] == b && forall m :: n < m < |cs| ==> |cs[m]| <= k)
    || (b == otherwise && forall m :: 0 <= m < |cs| ==> |cs[m]| <= k)
  }

  /** Non-empty chunks without separator. */
  predicate Unseparated(cs: seq<seq<byte>>) {
    forall n :: 0 <= n < |cs| ==> 0 < |cs[n]| <= 1570 && 13 !in cs[n]
  }

  lemma FromLastBefore(b: byte, c: seq<byte>, cs: seq<seq<byte>>, buf: seq<byte>, k: nat)
    requires |c| <= |buf| && k < |buf| && FromLast(b, cs, k, Overlay(buf, c)[k])
    ensures FromLast(b, [c] + cs, k, buf[k])
  {
    var all := [c] + cs;
    if n :| 0 <= n < |cs| && k < |cs[n]| && cs[n][k] == b && forall m :: n < m < |cs| ==> |cs[m]| <= k {
      assert all[n + 1] == cs[n];
      forall m | n + 1 < m < |all| ensures |all[m]| <= k {
        assert all[m] == cs[m - 1];
      }
    } else if k < |c| {
      assert all[0] == c;
      forall m | 0 < m < |all| ensures |all[m]| <= k {
        assert all[m] == cs[m - 1];
      }
    }
  }

  /**
   The first buffer handed on: chunks without separator are received over one another, and the one
   with a separator over them all; behind its end stand the bytes of the last chunk that reached there.
   */
  lemma {:induction false} FirstHandedFrom(a: seq<seq<byte>>, c: seq<byte>, rest: seq<seq<byte>>, buf: seq<byte>)
    requires Unseparated(a) && |c| <= 1570 && 13 in c && Chunks(rest) && |buf| == 1570
    ensures Chunks(a + [c] + rest)
    ensures var h := Handed(a + [c] + rest, buf);
            && h != [] && h[1..] == Handed(rest, Zeros(1570))
            && forall k :: 0 <= k < 1570 ==> FromLast(h[0][k], a + [c], k, buf[k])
  {
    var cs := a + [c] + rest;
    if a == [] {
      assert cs == [c] + rest && cs[1..] == rest && [] + [c] == [c];
      forall k | 0 <= k < 1570 ensures FromLast(Handed(cs, buf)[0][k], [c], k, buf[k]) {
        assert Handed(cs, buf)[0] == Overlay(buf, c);
        assert k < |c| ==> [c][0][k] == Overlay(buf, c)[k];
      }
    } else {
      var b := Overlay(buf, a[0]);
      FirstHandedFrom(a[1..], c, rest, b);
      assert cs[0] == a[0] && cs[1..] == a[1..] + [c] + rest;
      assert a + [c] == [a[0]] + (a[1..] + [c]);
      forall k | 0 <= k < 1570 ensures FromLast(Handed(cs, buf)[0][k], a + [c], k, buf[k]) {
        FromLastBefore(Handed(cs, buf)[0][k], a[0], a[1..] + [c], buf, k);
      }
    }
  }

  /** However TCP cuts the stream: each wake-up hands on what FirstHandedFrom says, over a cleared buffer. */
  lemma {:induction false} EveryHandedBuffer(a: seq<seq<byte>>, c: seq<byte>, rest: seq<seq<byte>>)
    requires Unseparated(a) && |c| <= 1570 && 13 in c && Chunks(rest)
    ensures Chunks(a + [c] + rest)
    ensures var h := Handed(a + [c] + rest, Zeros(1570));
            && h != [] && h[1..] == Handed(rest, Zeros(1570))
            && forall k :: 0 <= k < 1570 ==> FromLast(h[0][k], a + [c], k, 0)
  {
    FirstHandedFrom(a, c, rest, Zeros(1570));
  }

  /** Where the stream ends, or is closed, before a separator, nothing more is handed on. */
  lemma {:induction false} UnseparatedIsLost(a: seq<seq<byte>>, rest: seq<seq<byte>>, buf: seq<byte>)
    requires Unseparated(a) && Chunks(rest) && |buf| == 1570 && (rest != [] ==> rest[0] == [])
    ensures Chunks(a + rest) && Handed(a + rest, buf) == []
  {
    if a == [] {
      assert a + rest == rest;
    } else {
      UnseparatedIsLost(a[1..], rest, Overlay(buf, a[0]));
      assert (a + rest)[0] == a[0] && (a + rest)[1..] == a[1..] + rest;
    }
  }

  // ---- framing ----

  /** A server frame: full length, separator last. */
  predicate Framed(c: seq<byte>) {
    |c| == FRAME_LEN && c[FRAME_LEN - 1] == CR
  }

  function Total(cs: seq<seq<byte>>): nat {
    if cs == [] then 0 else |cs[0]| + Total(cs[1..])
  }

  /** When every recv returns one whole frame, every frame is handed on as it is. */
  lemma {:induction false} AlignedFramesArrive(cs: seq<seq<byte>>)
    requires forall i :: 0 <= i < |cs| ==> Framed(cs[i])
    ensures Chunks(cs) && Handed(cs, Zeros(BUFFER_CLIENT_LEN)) == cs
  {
    if cs != [] {
      AlignedFramesArrive(cs[1..]);
      assert cs[0][FRAME_LEN - 1] == CR;
      assert Overlay(Zeros(BUFFER_CLIENT_LEN), cs[0]) == cs[0];
      assert cs == [cs[0]] + cs[1..];
    }
  }

  /** No separator in the last place: what the buffer holds until a whole frame is received. */
  predicate Unfinished(buf: seq<byte>) {
    |buf| == BUFFER_CLIENT_LEN && buf[BUFFER_CLIENT_LEN - 1] != CR
  }

  /** Only a chunk of full length completes an unfinished buffer to a frame, and then it is the frame. */
  lemma WholeChunk(buf: seq<byte>, c: seq<byte>, b: seq<byte>)
    requires Unfinished(buf) && Chunk(c) && b == Overlay(buf, c) && Framed(b)
    ensures b == c && |c| == FRAME_LEN
  {
  }

  lemma StillUnfinished(buf: seq<byte>, c: seq<byte>, b: seq<byte>)
    requires Unfinished(buf) && Chunk(c) && b == Overlay(buf, c) && CR !in c
    ensures Unfinished(b)
  {
  }

  /**
   If every buffer handed on is a frame, each took one whole-frame chunk to itself, and bytes were
   lost unless the chunks are the frames.
   */
  lemma {:induction false} HandedFramesAreChunks(cs: seq<seq<byte>>, buf: seq<byte>)
    requires Chunks(cs) && Unfinished(buf)
    requires forall i :: 0 <= i < |cs| ==> cs[i] != []
    requires forall i :: 0 <= i < |Handed(cs, buf)| ==> Framed(Handed(cs, buf)[i])
    ensures Total(cs) >= FRAME_LEN * |Handed(cs, buf)|
    ensures Total(cs) == FRAME_LEN * |Handed(cs, buf)| ==> cs == Handed(cs, buf)
  {
    if cs != [] {
      var b := Overlay(buf, cs[0]);
      if CR in cs[0] {
        var all, rest := Handed(cs, buf), Handed(cs[1..], Zeros(BUFFER_CLIENT_LEN));
        assert all == [b] + rest;
        assert Framed(all[0]);
        WholeChunk(buf, cs[0], b);
        forall i | 0 <= i < |rest| ensures Framed(rest[i]) {
          assert rest[i] == all[i + 1];
        }
        HandedFramesAreChunks(cs[1..], Zeros(BUFFER_CLIENT_LEN));
        assert cs == [cs[0]] + cs[1..];
      } else {
        assert Handed(cs, buf) == Handed(cs[1..], b);
        StillUnfinished(buf, cs[0], b);
        HandedFramesAreChunks(cs[1..], b);
      }
    }
  }

  /**
   The loop hands on exactly the frames sent if and only if every recv returned one whole frame,
   however TCP cut the stream.
   */
  lemma {:induction false} FramesArriveIffAligned(cs: seq<seq<byte>>, frames: seq<Frame>)
    requires Chunks(cs) && (forall i :: 0 <= i < |cs| ==> cs[i] != [])
    requires forall i :: 0 <= i < |frames| ==> Framed(frames[i])
    requires Total(cs) == Total(frames)
    ensures Handed(cs, Zeros(BUFFER_CLIENT_LEN)) == frames <==> cs == frames
  {
    if cs == frames {
      AlignedFramesArrive(cs);
    }
    if Handed(cs, Zeros(BUFFER_CLIENT_LEN)) == frames {
      HandedFramesAreChunks(cs, Zeros(BUFFER_CLIENT_LEN));
      TotalOfFrames(frames);
    }
  }

  lemma {:induction false} TotalOfFrames(frames: seq<Frame>)
    requires forall i :: 0 <= i < |frames| ==> Framed(frames[i])
    ensures Total(frames) == FRAME_LEN * |frames|
  {
    if frames != [] {
      TotalOfFrames(frames[1..]);
    }
  }
}
