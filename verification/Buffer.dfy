/** The growable array behind the client table and each client's subscriptions (buffer.c). */
module Buffers {
  import opened Options
  import opened Seqs

  function Grown(cap: nat): nat {
    cap + cap / 2
  }

  /** The growth rule makes room exactly from capacity 2 on. */
  lemma GrowthMakesRoomIff(cap: nat)
    ensures Grown(cap) > cap <==> cap >= 2
    ensures cap >= 2 ==> 3 * (Grown(cap) - cap) >= cap
  {
  }

  /** The slots hold the sequence and nothing behind it. */
  ghost predicate Holds<T>(slots: seq<Option<T>>, s: seq<T>) {
    && |s| <= |slots|
    && (forall k :: 0 <= k < |s| ==> slots[k] == Some(s[k]))
    && (forall k :: |s| <= k < |slots| ==> slots[k] == None)
  }

  /** Slots that have made room at `pos` hold the longer sequence once the new one is stored there. */
  lemma SlotsInserted<T>(slots: seq<Option<T>>, slots': seq<Option<T>>, s: seq<T>, pos: nat, x: T)
    requires Holds(slots, s) && pos <= |s| < |slots| == |slots'|
    requires slots'[pos] == Some(x)
    requires forall k :: 0 <= k < |slots| && !(pos <= k <= |s|) ==> slots'[k] == slots[k]
    requires forall k :: pos < k <= |s| ==> slots'[k] == slots[k - 1]
    ensures Holds(slots', Inserted(s, pos, x))
  {
  }

  /** Slots that have closed the gap at `pos` hold the shorter sequence. */
  lemma SlotsRemoved<T>(slots: seq<Option<T>>, slots': seq<Option<T>>, s: seq<T>, pos: nat)
    requires Holds(slots, s) && pos < |s| && |slots| == |slots'|
    requires slots'[|s| - 1] == None
    requires forall k :: 0 <= k < |slots| && !(pos <= k < |s|) ==> slots'[k] == slots[k]
    requires forall k :: pos <= k < |s| - 1 ==> slots'[k] == slots[k + 1]
    ensures Holds(slots', Removed(s, pos))
  {
  }

  /**
   A slot is the pointer stored in `data`: Some if it leads to a live element, None if it is null,
   uninitialised or freed.
   */
  class Buffer<T> {
    var data: array<Option<T>>
    var len: nat
    var cap: nat
    ghost var Contents: seq<T>  // the elements, in order
    // Ghost accounting: capacity at creation, insertions so far, slots moved by realloc so far.
    ghost const cap0: nat
    ghost var added: nat
    ghost var moved: nat

    ghost predicate Valid()
      reads this, data
      ensures Valid() ==> |Contents| == len
    {
      && cap == data.Length
      && 1 <= cap0 <= cap
      && len <= cap
      && len <= added
      && |Contents| == len
      && Holds(data[..], Contents)
      // Amortised growth: from floor(c/2) >= c/3 at each growth.
      && moved <= 3 * (cap - cap0)
      && moved <= 4 * added
    }

    constructor (capacity: nat)
      requires capacity > 0
      ensures Valid() && fresh(data)
      ensures Contents == [] && cap == cap0 == capacity && added == moved == 0
    {
      data := new Option<T>[capacity](_ => None);
      len, cap, Contents := 0, capacity, [];
      cap0, added, moved := capacity, 0, 0;
    }

    /** The element at `pos`; at `len`, which the source lets through, there is none. */
    method GetPos(pos: nat) returns (x: Option<T>)
      requires Valid() && pos <= len
      ensures x == if pos < len then Some(Contents[pos]) else None
    {
      x := if pos < cap then data[pos] else None;
    }

    /** realloc to the next capacity; the new slots are uninitialised. */
    method Grow()
      requires Valid() && len == cap && cap >= 2
      modifies this
      ensures Valid() && fresh(data) && len < cap
      ensures Contents == old(Contents) && added == old(added)
      ensures moved == old(moved) + old(cap) && cap == old(cap + cap / 2)
    {
      GrowthMakesRoomIff(cap);
      var bigger := new Option<T>[Grown(cap)](_ => None);
      for i := 0 to cap
        invariant unchanged(this) && unchanged(data)
        invariant forall k :: 0 <= k < i ==> bigger[k] == data[k]
        invariant forall k :: i <= k < bigger.Length ==> bigger[k] == None
      {
        bigger[i] := data[i];
      }
      moved := moved + cap;
      data, cap := bigger, bigger.Length;
    }

    /** memmove of the tail one slot up, from its far end down. */
    method MakeRoom(pos: nat)
      requires pos <= len < cap == data.Length
      modifies data
      ensures forall k :: 0 <= k < cap && !(pos < k <= len) ==> data[k] == old(data[k])
      ensures forall k :: pos < k <= len ==> data[k] == old(data[k - 1])
    {
      var i := len;
      while i > pos
        invariant pos <= i <= len
        invariant forall k :: 0 <= k < cap && !(i < k <= len) ==> data[k] == old(data[k])
        invariant forall k :: i < k <= len ==> data[k] == old(data[k - 1])
      {
        data[i] := data[i - 1];
        i := i - 1;
      }
    }

    /** The insertion itself, once there is room. */
    method Insert(x: T, pos: nat)
      requires Valid() && pos <= len < cap
      modifies this, data
      ensures Valid() && data == old(data) && cap == old(cap)
      ensures Contents == Inserted(old(Contents), pos, x)
      ensures added == old(added) + 1 && moved == old(moved)
    {
      ghost var slots := data[..];
      MakeRoom(pos);
      data[pos] := Some(x);
      SlotsInserted(slots, data[..], Contents, pos, x);
      len := len + 1;
      added := added + 1;
      Contents := Inserted(Contents, pos, x);
    }

    method AddPos(x: T, pos: nat)
      requires Valid() && pos <= len
      requires len < cap || cap >= 2
      modifies this, data
      ensures Valid() && (data == old(data) || fresh(data))
      ensures Contents == Inserted(old(Contents), pos, x)
      ensures added == old(added) + 1
      ensures cap == if old(len == cap) then old(cap + cap / 2) else old(cap)
      ensures moved <= 4 * added
    {
      if len == cap {
        Grow();
      }
      Insert(x, pos);
    }

    /** The slots after `pos` move one place down. */
    method CloseGap(pos: nat)
      requires pos < len <= cap == data.Length
      modifies data
      ensures forall k :: 0 <= k < cap && !(pos <= k < len - 1) ==> data[k] == old(data[k])
      ensures forall k :: pos <= k < len - 1 ==> data[k] == old(data[k + 1])
    {
      var i := pos;
      while i + 1 < len
        invariant pos <= i < len
        invariant forall k :: 0 <= k < cap && !(pos <= k < i) ==> data[k] == old(data[k])
        invariant forall k :: pos <= k < i ==> data[k] == old(data[k + 1])
      {
        data[i] := data[i + 1];
        i := i + 1;
      }
    }

    /**
     Remove the element and shift the rest, as the repository's README.md:62 describes it. At `len`,
     which the source lets through, there is no element to remove.
     */
    method DelPos(pos: nat) returns (defined: bool)
      requires Valid() && pos <= len
      modifies this, data
      ensures Valid() && data == old(data) && cap == old(cap) && added == old(added)
      ensures defined <==> pos < old(len)
      ensures Contents == if defined then Removed(old(Contents), pos) else old(Contents)
    {
      if pos == len {
        return false;
      }
      ghost var slots := data[..];
      CloseGap(pos);
      data[len - 1] := None;
      SlotsRemoved(slots, data[..], Contents, pos);
      len := len - 1;
      Contents := Removed(Contents, pos);
      return true;
    }

    /**
     The removal loop as it is written: it starts two places too far right, copies between
     elements instead of slots, and runs to the slots `len` and `len + 1`. `defined` turns false at
     the first access that does not lead to a live element, be it a copy or the final free.
     */
    method DelPosAsWritten(pos: nat) returns (defined: bool)
      requires Valid() && pos <= len
      modifies this, data
      ensures data == old(data) && cap == old(cap)
      ensures defined <==> old(pos + 1 == len)
      ensures defined ==> Valid() && Contents == Removed(old(Contents), pos)
    {
      var i := pos + 1;
      while true
        modifies data
        invariant pos + 1 <= i && (i <= len || i == len + 1 == pos + 1)
        invariant i == len ==> pos + 1 == len
        invariant forall k :: 0 <= k <= pos + 1 && k < cap ==> data[k] == old(data[k])
        invariant forall k :: 0 <= k < len ==> data[k].Some?
        invariant forall k :: len <= k < cap ==> data[k].None?
        decreases len - i
      {
        var more := i < len;
        i := i + 1;
        if !more {
          break;
        }
        if i + 1 >= cap || data[i].None? || data[i + 1].None? {
          return false;
        }
        data[i] := data[i + 1];
      }
      if pos >= cap || data[pos].None? {
        return false;
      }
      data[pos] := None;
      len := len - 1;
      Contents := Removed(Contents, pos);
      return true;
    }
  }
}
