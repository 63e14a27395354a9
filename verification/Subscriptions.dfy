/**
 One client's subscription entries, newest first, and the two loops that scan them:
 the match loop of a publication and the delete loop of an unsubscription.
 */
module Subscriptions {
  import opened Bytes
  import opened Options
  import opened Seqs

  datatype Sub = Sub(topic: seq<byte>, sf: int)

  /** An entry that yields one copy of a message on `topic`. */
  predicate Live(s: Sub, topic: seq<byte>, online: bool) {
    s.topic == topic && (online || s.sf == 1)
  }

  /** How many copies a publication on `topic` yields. */
  function Copies(subs: seq<Sub>, topic: seq<byte>, online: bool): nat {
    if subs == [] then 0
    else (if Live(subs[0], topic, online) then 1 else 0) + Copies(subs[1..], topic, online)
  }

  lemma {:induction false} CopiesOfConcat(a: seq<Sub>, b: seq<Sub>, topic: seq<byte>, online: bool)
    ensures Copies(a + b, topic, online) == Copies(a, topic, online) + Copies(b, topic, online)
  {
    if a == [] {
      assert a + b == b;
    } else {
      assert (a + b)[1..] == a[1..] + b;
      CopiesOfConcat(a[1..], b, topic, online);
    }
  }

  lemma {:induction false} SomeCopyIffSomeLiveEntry(subs: seq<Sub>, topic: seq<byte>, online: bool)
    ensures Copies(subs, topic, online) > 0 <==> exists j :: 0 <= j < |subs| && Live(subs[j], topic, online)
  {
    if subs != [] {
      SomeCopyIffSomeLiveEntry(subs[1..], topic, online);
      assert forall j :: 0 < j < |subs| ==> subs[j] == subs[1..][j - 1];
      if j :| 0 <= j < |subs[1..]| && Live(subs[1..][j], topic, online) {
        assert Live(subs[j + 1], topic, online);
      }
    }
  }

  /**
   The delete loop: the index moves on after a removal too, so the entry that slides into the
   freed place is never looked at.
   */
  function DeleteLoop(subs: seq<Sub>, topic: seq<byte>, j: nat): seq<Sub>
    decreases |subs| - j
  {
    if j >= |subs| then subs
    else if subs[j].topic == topic then DeleteLoop(Removed(subs, j), topic, j + 1)
    else DeleteLoop(subs, topic, j + 1)
  }

  function Unsubscribed(subs: seq<Sub>, topic: seq<byte>): seq<Sub> {
    DeleteLoop(subs, topic, 0)
  }

  // ---- what is left after an unsubscription ----

  function Others(subs: seq<Sub>, topic: seq<byte>): seq<Sub> {
    if subs == [] then []
    else (if subs[0].topic != topic then [subs[0]] else []) + Others(subs[1..], topic)
  }

  /** Length of the run of entries for `topic` that `subs` starts with. */
  function RunLength(subs: seq<Sub>, topic: seq<byte>): (r: nat)
    ensures r <= |subs|
    ensures forall k :: 0 <= k < r ==> subs[k].topic == topic
    ensures r < |subs| ==> subs[r].topic != topic
  {
    if subs == [] || subs[0].topic != topic then 0 else 1 + RunLength(subs[1..], topic)
  }

  /** The entries at the odd places of a run: the ones a deletion slides out of sight. */
  function OddPlaces(s: seq<Sub>): (r: seq<Sub>)
    ensures |r| == |s| / 2
    ensures forall k :: 0 <= k < |r| ==> r[k] == s[2 * k + 1]
  {
    if |s| < 2 then [] else [s[1]] + OddPlaces(s[2..])
  }

  /**
   What an unsubscription is claimed to leave, run by run: of each maximal run of r adjacent
   entries for the topic the floor(r/2) entries at odd places, of everything else all.
   */
  function LeftBehind(subs: seq<Sub>, topic: seq<byte>): seq<Sub> {
    if subs == [] then []
    else if subs[0].topic != topic then [subs[0]] + LeftBehind(subs[1..], topic)
    else
      var r := RunLength(subs, topic);
      OddPlaces(subs[..r]) + LeftBehind(subs[r..], topic)
  }

  /** The delete loop looks at every other entry of a run and at every entry elsewhere. */
  function Skim(subs: seq<Sub>, topic: seq<byte>): seq<Sub> {
    if subs == [] then []
    else if subs[0].topic != topic then [subs[0]] + Skim(subs[1..], topic)
    else if |subs| == 1 then []
    else [subs[1]] + Skim(subs[2..], topic)
  }

  lemma {:induction false} DeleteLoopIsSkim(subs: seq<Sub>, topic: seq<byte>, j: nat)
    requires j <= |subs|
    ensures DeleteLoop(subs, topic, j) == subs[..j] + Skim(subs[j..], topic)
    decreases |subs| - j
  {
    if j == |subs| {
      assert subs[..j] + [] == subs;
    } else if subs[j].topic != topic {
      DeleteLoopIsSkim(subs, topic, j + 1);
      assert subs[j..][1..] == subs[j + 1..];
      assert subs[..j + 1] == subs[..j] + [subs[j]];
    } else if j + 1 == |subs| {
      assert Removed(subs, j) == subs[..j] + [];
    } else {
      hide Removed;
      DeleteLoopIsSkim(Removed(subs, j), topic, j + 1);
      RemovedParts(subs, j);
      SkimAfterMatch(subs[j..], topic);
      assert subs[..j] + [subs[j + 1]] + Skim(subs[j + 2..], topic)
          == subs[..j] + ([subs[j + 1]] + Skim(subs[j + 2..], topic));
    }
  }

  lemma RemovedParts(subs: seq<Sub>, j: nat)
    requires j + 1 < |subs|
    ensures Removed(subs, j)[..j + 1] == subs[..j] + [subs[j + 1]]
    ensures Removed(subs, j)[j + 1..] == subs[j + 2..] == subs[j..][2..]
  {
  }

  lemma SkimAfterMatch(subs: seq<Sub>, topic: seq<byte>)
    requires |subs| > 1 && subs[0].topic == topic
    ensures Skim(subs, topic) == [subs[1]] + Skim(subs[2..], topic)
  {
  }

  lemma UnsubscribedIsSkim(subs: seq<Sub>, topic: seq<byte>)
    ensures Unsubscribed(subs, topic) == Skim(subs, topic)
  {
    DeleteLoopIsSkim(subs, topic, 0);
    assert subs[..0] + Skim(subs[0..], topic) == Skim(subs, topic);
  }

  lemma {:induction false} SkimIsLeftBehind(subs: seq<Sub>, topic: seq<byte>)
    ensures Skim(subs, topic) == LeftBehind(subs, topic)
    decreases |subs|
  {
    if subs == [] {
    } else if subs[0].topic != topic {
      SkimIsLeftBehind(subs[1..], topic);
    } else if |subs| == 1 {
      assert RunLength(subs, topic) == 1;
    } else if subs[1].topic != topic {
      assert RunLength(subs[1..], topic) == 0;
      assert RunLength(subs, topic) == 1;
      SkimIsLeftBehind(subs[2..], topic);
      assert subs[1..][1..] == subs[2..];
    } else {
      SkimIsLeftBehind(subs[2..], topic);
      var r := RunLength(subs[2..], topic);
      assert subs[1..][1..] == subs[2..];
      assert RunLength(subs[1..], topic) == r + 1;
      assert RunLength(subs, topic) == r + 2;
      assert subs[..r + 2][2..] == subs[2..][..r];
      assert subs[r + 2..] == subs[2..][r..];
      if r == 0 {
        assert OddPlaces(subs[2..][..r]) == [];
      } else {
        assert LeftBehind(subs[2..], topic) == OddPlaces(subs[2..][..r]) + LeftBehind(subs[2..][r..], topic);
      }
      assert OddPlaces(subs[..r + 2]) == [subs[1]] + OddPlaces(subs[2..][..r]);
    }
  }

  /** Of each maximal run of r entries for the topic exactly floor(r/2) stay, at known places. */
  lemma UnsubscribeHalvesRuns(subs: seq<Sub>, topic: seq<byte>)
    ensures Unsubscribed(subs, topic) == LeftBehind(subs, topic)
  {
    UnsubscribedIsSkim(subs, topic);
    SkimIsLeftBehind(subs, topic);
  }

  /** Entries for other topics keep their order and flags. */
  lemma {:induction false} UnsubscribeKeepsOthers(subs: seq<Sub>, topic: seq<byte>)
    ensures Others(Unsubscribed(subs, topic), topic) == Others(subs, topic)
  {
    UnsubscribedIsSkim(subs, topic);
    SkimKeepsOthers(subs, topic);
  }

  lemma {:induction false} SkimKeepsOthers(subs: seq<Sub>, topic: seq<byte>)
    ensures Others(Skim(subs, topic), topic) == Others(subs, topic)
    decreases |subs|
  {
    if subs == [] {
    } else if subs[0].topic != topic {
      SkimKeepsOthers(subs[1..], topic);
      assert Skim(subs, topic)[1..] == Skim(subs[1..], topic);
    } else if |subs| > 1 {
      SkimKeepsOthers(subs[2..], topic);
      assert Skim(subs, topic)[1..] == Skim(subs[2..], topic);
      assert subs[1..][1..] == subs[2..];
    }
  }

  predicate Adjacent(subs: seq<Sub>, topic: seq<byte>) {
    exists i :: 0 <= i < |subs| - 1 && subs[i].topic == topic && subs[i + 1].topic == topic
  }

  /**
   The promise "removes the client from the topic's list" is kept exactly when no two entries
   for the topic are neighbours.
   */
  lemma UnsubscribeRemovesTopicIff(subs: seq<Sub>, topic: seq<byte>)
    ensures (forall s :: s in Unsubscribed(subs, topic) ==> s.topic != topic) <==> !Adjacent(subs, topic)
  {
    UnsubscribedIsSkim(subs, topic);
    SkimClearsIff(subs, topic);
  }

  lemma {:induction false} SkimClearsIff(subs: seq<Sub>, topic: seq<byte>)
    ensures (forall s :: s in Skim(subs, topic) ==> s.topic != topic) <==> !Adjacent(subs, topic)
    decreases |subs|
  {
    if |subs| <= 1 {
    } else if subs[0].topic != topic {
      SkimClearsIff(subs[1..], topic);
      AdjacentInTail(subs, topic, 1);
    } else if subs[1].topic == topic {
      assert subs[1] in Skim(subs, topic);
      assert Adjacent(subs, topic) by { assert subs[0].topic == topic && subs[0 + 1].topic == topic; }
    } else {
      SkimClearsIff(subs[2..], topic);
      AdjacentInTail(subs, topic, 2);
    }
  }

  lemma AdjacentInTail(subs: seq<Sub>, topic: seq<byte>, k: nat)
    requires k <= |subs|
    requires forall i :: 0 <= i < k && i + 1 < |subs| ==> !(subs[i].topic == topic && subs[i + 1].topic == topic)
    ensures Adjacent(subs, topic) <==> Adjacent(subs[k..], topic)
  {
    if i :| 0 <= i < |subs| - 1 && subs[i].topic == topic && subs[i + 1].topic == topic {
      assert subs[k..][i - k] == subs[i] && subs[k..][i - k + 1] == subs[i + 1];
    }
    if i :| 0 <= i < |subs[k..]| - 1 && subs[k..][i].topic == topic && subs[k..][i + 1].topic == topic {
      assert subs[k..][i] == subs[i + k] && subs[k..][i + 1] == subs[i + k + 1];
      assert 0 <= i + k < |subs| - 1;
    }
  }

  // ---- the loop over del_pos as it is written ----

  /**
   The delete loop over the shifting loop of buffer.c:71-80, which leaves the live slots unless the
   removed entry is the last one (Buffer.DelPosAsWritten): None stands for that undefined access.
   */
  function DeleteLoopAsWritten(subs: seq<Sub>, topic: seq<byte>, j: nat): Option<seq<Sub>>
    decreases |subs| - j
  {
    if j >= |subs| then Some(subs)
    else if subs[j].topic != topic then DeleteLoopAsWritten(subs, topic, j + 1)
    else if j + 1 == |subs| then DeleteLoopAsWritten(Removed(subs, j), topic, j + 1)
    else None
  }

  /** The written loop is defined exactly when the topic occurs at most as the oldest entry, */
  lemma {:induction false} AsWrittenDefinedIff(subs: seq<Sub>, topic: seq<byte>, j: nat)
    ensures DeleteLoopAsWritten(subs, topic, j).Some? <==>
            forall i :: j <= i < |subs| - 1 ==> subs[i].topic != topic
    ensures DeleteLoopAsWritten(subs, topic, j).Some? ==>
            DeleteLoopAsWritten(subs, topic, j).value == DeleteLoop(subs, topic, j)
    decreases |subs| - j
  {
    if j < |subs| {
      if subs[j].topic != topic {
        AsWrittenDefinedIff(subs, topic, j + 1);
      } else if j + 1 == |subs| {
        AsWrittenDefinedIff(Removed(subs, j), topic, j + 1);
      }
    }
  }

  /** and then it removes the topic and nothing else. */
  lemma {:induction false} AsWrittenThenRemovesTopic(subs: seq<Sub>, topic: seq<byte>)
    requires DeleteLoopAsWritten(subs, topic, 0).Some?
    ensures DeleteLoopAsWritten(subs, topic, 0).value == Others(subs, topic)
  {
    AsWrittenDefinedIff(subs, topic, 0);
    UnsubscribeKeepsOthers(subs, topic);
    UnsubscribeRemovesTopicIff(subs, topic);
    NothingElse(Unsubscribed(subs, topic), topic);
  }

  lemma {:induction false} NothingElse(subs: seq<Sub>, topic: seq<byte>)
    requires forall s :: s in subs ==> s.topic != topic
    ensures Others(subs, topic) == subs
  {
    if subs != [] {
      NothingElse(subs[1..], topic);
    }
  }

  /**
   Over the written removal the loop never gets to skip anything: whenever it would leave an entry
   for the topic, it is undefined. Leaving entries behind is the repaired removal's doing.
   */
  lemma {:induction false} SkippingNeedsTheRepair(subs: seq<Sub>, topic: seq<byte>)
    requires exists s :: s in Unsubscribed(subs, topic) && s.topic == topic
    ensures DeleteLoopAsWritten(subs, topic, 0) == None
  {
    UnsubscribeRemovesTopicIff(subs, topic);
    AsWrittenDefinedIff(subs, topic, 0);
  }
}
