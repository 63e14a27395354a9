/** A client's subscriptions as two parallel buffers (struct TopicSF of buffer.h). */
module Interests {
  import opened Bytes
  import opened Options
  import opened Seqs
  import opened Subscriptions
  import opened Buffers

  /** Entry j of the topic buffer with entry j of the flag buffer. */
  function Zip(topics: seq<seq<byte>>, sfs: seq<int>): (r: seq<Sub>)
    requires |topics| == |sfs|
    ensures |r| == |topics|
  {
    seq(|topics|, i requires 0 <= i < |topics| => Sub(topics[i], sfs[i]))
  }

  lemma ZipInserted(topics: seq<seq<byte>>, sfs: seq<int>, topic: seq<byte>, sf: int)
    requires |topics| == |sfs|
    ensures Zip(Inserted(topics, 0, topic), Inserted(sfs, 0, sf)) == [Sub(topic, sf)] + Zip(topics, sfs)
  {
  }

  lemma ZipRemoved(topics: seq<seq<byte>>, sfs: seq<int>, j: nat)
    requires |topics| == |sfs| && j < |topics|
    ensures Zip(Removed(topics, j), Removed(sfs, j)) == Removed(Zip(topics, sfs), j)
  {
  }

  class TopicSF {
    const topics: Buffer<seq<byte>>
    const sfs: Buffer<int>
    ghost var Subs: seq<Sub>  // the buffers, entry by entry
    ghost var Repr: set<object>

    ghost predicate Valid()
      reads this, Repr
      ensures Valid() ==> this in Repr
    {
      && this in Repr && topics in Repr && sfs in Repr && topics.data in Repr && sfs.data in Repr
      && topics as object != sfs && topics.data as object != sfs.data
      && topics.Valid() && sfs.Valid() && topics.cap >= 2 && sfs.cap >= 2
      && |topics.Contents| == |sfs.Contents|
      && Subs == Zip(topics.Contents, sfs.Contents)
    }

    constructor ()
      ensures Valid() && fresh(Repr) && Subs == []
    {
      hide Buffer.Valid;
      var topicBuffer := new Buffer<seq<byte>>(8);  // sizeof(char *)
      var sfBuffer := new Buffer<int>(4);  // sizeof(int)
      topics, sfs, Subs := topicBuffer, sfBuffer, [];
      Repr := {this, topicBuffer, topicBuffer.data, sfBuffer, sfBuffer.data};
    }

    method Get(j: nat) returns (s: Sub)
      requires Valid() && j < |Subs|
      ensures s == Subs[j]
    {
      hide Buffer.Valid;
      var topic := topics.GetPos(j);
      var sf := sfs.GetPos(j);
      s := Sub(topic.value, sf.value);
    }

    method Add(topic: seq<byte>, sf: int)
      requires Valid()
      modifies Repr
      ensures Valid() && fresh(Repr - old(Repr))
      ensures Subs == [Sub(topic, sf)] + old(Subs)
    {
      hide Buffer.Valid;
      ZipInserted(topics.Contents, sfs.Contents, topic, sf);
      topics.AddPos(topic, 0);
      sfs.AddPos(sf, 0);
      Repr := Repr + {topics.data, sfs.data};
      Subs := [Sub(topic, sf)] + Subs;
    }

    method Delete(j: nat)
      requires Valid() && j < |Subs|
      modifies Repr
      ensures Valid() && Repr == old(Repr)
      ensures Subs == Removed(old(Subs), j)
    {
      hide Buffer.Valid;
      ZipRemoved(topics.Contents, sfs.Contents, j);
      var removed := topics.DelPos(j);
      removed := sfs.DelPos(j);
      Subs := Removed(Subs, j);
    }

    method Len() returns (n: nat)
      requires Valid()
      ensures n == |Subs|
    {
      hide Buffer.Valid;
      n := topics.len;
    }

    /** The delete loop of an unsubscription, index by index. */
    method DeleteAll(topic: seq<byte>)
      requires Valid()
      modifies Repr
      ensures Valid() && Repr == old(Repr)
      ensures Subs == Unsubscribed(old(Subs), topic)
    {
      hide Buffer.Valid;
      var j, n := 0, topics.len;
      while j < n
        invariant Valid() && Repr == old(Repr) && n == |Subs|
        invariant DeleteLoop(Subs, topic, j) == Unsubscribed(old(Subs), topic)
        decreases |Subs| - j
      {
        var t := topics.GetPos(j);
        if t == Some(topic) {
          Delete(j);
        }
        j := j + 1;
        n := topics.len;
      }
    }

    /** Both buffers' removal as it is written: undefined unless the entry is the last one. */
    method DeleteAsWritten(j: nat) returns (defined: bool)
      requires Valid() && j < |Subs|
      modifies Repr
      ensures defined <==> j + 1 == old(|Subs|)
      ensures defined ==> Valid() && Repr == old(Repr) && Subs == Removed(old(Subs), j)
    {
      hide Buffer.Valid;
      ZipRemoved(topics.Contents, sfs.Contents, j);
      defined := topics.DelPosAsWritten(j);
      if defined {
        var flagToo := sfs.DelPosAsWritten(j);
        Subs := Removed(Subs, j);
      }
    }

    /** The delete loop over it: where it is defined it does what DeleteAll does. */
    method DeleteAllAsWritten(topic: seq<byte>) returns (defined: bool)
      requires Valid()
      modifies Repr
      ensures defined <==> forall i :: 0 <= i < |old(Subs)| - 1 ==> old(Subs)[i].topic != topic
      ensures defined ==> Valid() && Repr == old(Repr) && Subs == Unsubscribed(old(Subs), topic)
    {
      hide Buffer.Valid;
      ghost var was := Subs;
      AsWrittenDefinedIff(was, topic, 0);
      var j, n := 0, topics.len;
      while j < n
        invariant Valid() && Repr == old(Repr) && n == |Subs|
        invariant DeleteLoopAsWritten(Subs, topic, j) == DeleteLoopAsWritten(was, topic, 0)
        decreases |Subs| - j
      {
        var t := topics.GetPos(j);
        if t == Some(topic) {
          defined := DeleteAsWritten(j);
          if !defined {
            return;
          }
        }
        j := j + 1;
        n := topics.len;
      }
      defined := true;
    }
  }
}
