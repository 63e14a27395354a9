/** The messages a client missed: a queue of frames, each in memory of its own. */
module WaitingFrames {
  import opened Bytes
  import opened Wire
  import opened Broker
  import opened Queues

  class FrameQueue {
    const queue: Queue<array<byte>>
    ghost var Frames: seq<Frame>
    ghost var Repr: set<object>

    ghost predicate Valid()
      reads this, Repr
      ensures Valid() ==> this in Repr
    {
      && this in Repr && queue in Repr
      && (forall i :: 0 <= i < |queue.Spine| ==> queue.Spine[i] in Repr)
      && queue.Valid()
      && |Frames| == |queue.Contents|
      && (forall i :: 0 <= i < |Frames| ==> Stored(queue.Contents[i], Frames[i]))
    }

    ghost predicate Stored(a: array<byte>, f: Frame)
      reads this, Repr
    {
      a in Repr && a.Length == FRAME_LEN && a[..] == f
    }

    constructor ()
      ensures Valid() && fresh(Repr) && Frames == []
    {
      var q := new Queue<array<byte>>();
      queue, Frames := q, [];
      Repr := {this, q};
    }

    predicate IsEmpty()
      requires Valid()
      reads this, Repr
      ensures IsEmpty() <==> Frames == []
    {
      queue.Empty()
    }

    static method Copy(format: array<byte>) returns (temp: array<byte>)
      requires format.Length == FRAME_LEN
      ensures fresh(temp) && temp.Length == FRAME_LEN && temp[..] == format[..]
    {
      temp := new byte[FRAME_LEN];
      Memcpy(temp, 0, format[..]);
      assert temp[..] == format[..];
    }

    /** Copy the shared format buffer and queue the copy. */
    method Store(format: array<byte>)
      requires Valid() && format.Length == FRAME_LEN && format !in Repr
      modifies Repr
      ensures Valid() && fresh(Repr - old(Repr))
      ensures Frames == old(Frames) + [format[..]]
    {
      hide Queue.Valid;
      var temp := Copy(format);
      queue.Enq(temp);
      Repr := Repr + {temp, queue.Spine[|queue.Spine| - 1]};
      Frames := Frames + [format[..]];
      StoredKeep();
    }

    /** What the queue led to before, it leads to still. */
    twostate lemma StoredKeep()
      requires old(Valid()) && old(Repr) <= Repr
      requires forall i :: 0 <= i < |old(Frames)| ==> unchanged(old(queue.Contents[i]))
      ensures forall i :: 0 <= i < |old(Frames)| ==> Stored(old(queue.Contents[i]), old(Frames[i]))
    {
      hide Queue.Valid;
      forall i | 0 <= i < |old(Frames)| ensures Stored(old(queue.Contents[i]), old(Frames[i])) {
        assert old(Stored(queue.Contents[i], Frames[i]));
      }
    }

    method Next() returns (message: array<byte>)
      requires Valid() && Frames != []
      modifies Repr
      ensures Valid() && Repr == old(Repr)
      ensures [message[..]] + Frames == old(Frames)
    {
      assert Stored(queue.Contents[0], Frames[0]);
      message := queue.Deq();
      Frames := Frames[1..];
    }
  }
}
