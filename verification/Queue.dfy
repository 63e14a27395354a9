/** The FIFO of missed messages (queue.c) over singly linked cells (list.c). */
module Queues {

  class Cell<T> {
    const element: T
    var next: Cell?<T>

    /** cons */
    constructor (element: T, l: Cell?<T>)
      ensures this.element == element && next == l
    {
      this.element := element;
      next := l;
    }
  }

  class Queue<T> {
    var head: Cell?<T>
    var tail: Cell?<T>  // stale while head is null
    ghost var Spine: seq<Cell<T>>  // the cells from head on
    ghost var Contents: seq<T>

    ghost predicate Valid()
      reads this, Spine
      ensures Valid() ==> |Contents| == |Spine|
    {
      && (head == null <==> Spine == [])
      && (Spine != [] ==> head == Spine[0] && tail == Spine[|Spine| - 1] && Spine[|Spine| - 1].next == null)
      && (forall i, j :: 0 <= i < j < |Spine| ==> Spine[i] != Spine[j])
      && (forall i, j :: 0 <= i && i + 1 == j < |Spine| ==> Spine[i].next == Spine[j])
      && |Contents| == |Spine|
      && (forall i :: 0 <= i < |Spine| ==> Contents[i] == Spine[i].element)
    }

    /** queue_create */
    constructor ()
      ensures Valid() && Contents == [] && Spine == []
    {
      head, tail := null, null;
      Spine, Contents := [], [];
    }

    predicate Empty()
      requires Valid()
      reads this, Spine
      ensures Empty() <==> Contents == []
    {
      head == null
    }

    method Enq(element: T)
      requires Valid()
      modifies this, Spine
      ensures Valid() && Contents == old(Contents) + [element]
      ensures |Spine| == |old(Spine)| + 1 && Spine[..|old(Spine)|] == old(Spine)
      ensures fresh(Spine[|old(Spine)|])
    {
      var c := new Cell(element, null);
      if Empty() {
        head, tail := c, c;
      } else {
        tail.next := c;
        tail := c;
      }
      Spine, Contents := Spine + [c], Contents + [element];
    }

    method Deq() returns (element: T)
      requires Valid() && Contents != []
      modifies this
      ensures Valid() && [element] + Contents == old(Contents)
      ensures Spine == old(Spine)[1..]
      ensures tail == old(tail)  // stale once the queue is empty
    {
      assert |Spine| > 1 ==> Spine[0].next == Spine[1];
      element := head.element;
      head := head.next;
      Spine, Contents := Spine[1..], Contents[1..];
    }

    method Peek() returns (element: T)
      requires Valid() && Contents != []
      ensures element == Contents[0]
    {
      element := head.element;
    }

    /** Takes the cells off one by one; `released` lists them as they are freed. */
    method Destroy() returns (ghost released: seq<Cell<T>>, elements: seq<T>)
      requires Valid()
      modifies this
      ensures Valid() && Contents == []
      ensures released == old(Spine) && elements == old(Contents)
    {
      released, elements := [], [];
      ghost var k := 0;
      while !Empty()
        invariant Valid() && k <= |old(Spine)|
        invariant released == old(Spine)[..k] && Spine == old(Spine)[k..]
        invariant elements == old(Contents)[..k] && Contents == old(Contents)[k..]
        decreases |Spine|
      {
        released := released + [head];
        var element := Deq();
        elements := elements + [element];
        k := k + 1;
      }
    }
  }
}
