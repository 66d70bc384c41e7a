/** ListFIFOQueue: an unbounded FIFO work list kept in a doubly linked list
    between a head and a tail sentinel.  clear() only sets head to null and
    size to 0: the nodes stay linked to the tail, later adds still link in
    before the tail, but peek() reports an empty queue and next() follows
    the null head. */
module ListQueue {
  import opened JavaErrors

  class Node<E(0)> {
    var data: E
    var next: Node?<E>
    var prev: Node?<E>

    /** Node(): a sentinel, no links. */
    constructor Sentinel()
      ensures next == null && prev == null
    {
      next := null;
      prev := null;
    }

    /** Node(dataValue): no links yet. */
    constructor (dataValue: E)
      ensures data == dataValue && next == null && prev == null
    {
      data := dataValue;
      next := null;
      prev := null;
    }
  }

  class ListFIFOQueue<E(0)> {
    var head: Node?<E>
    var tail: Node<E>
    var size: int
    /** The chain from the head sentinel created by the constructor to the
        tail sentinel: the data nodes are spine[1..|spine| - 1]. */
    ghost var spine: seq<Node<E>>
    /** The data held by the data nodes, front to back. */
    ghost var elems: seq<E>
    ghost var Repr: set<object>

    ghost predicate Linked()
      reads this, spine
    {
      |spine| >= 2 && |elems| == |spine| - 2 &&
      spine[|spine| - 1] == tail &&
      (forall i, j :: 0 <= i < j < |spine| ==> spine[i] != spine[j]) &&
      (forall k :: 0 <= k < |spine| - 1 ==> spine[k].next == spine[k + 1]) &&
      (forall k :: 0 < k < |spine| ==> spine[k].prev == spine[k - 1]) &&
      (forall i :: 0 <= i < |elems| ==> spine[i + 1].data == elems[i])
    }

    ghost predicate Valid()
      reads this, Repr
      ensures Valid() ==> this in Repr
    {
      this in Repr &&
      (forall k :: 0 <= k < |spine| ==> spine[k] in Repr) &&
      Linked() &&
      (head != null ==> head == spine[0] && size == |elems|) &&
      (head == null ==> 0 <= size <= |elems|)
    }

    /** What the queue offers: nothing once cleared, otherwise every element. */
    ghost function Contents(): seq<E>
      reads this
    {
      if head == null then [] else elems
    }

    constructor ()
      ensures Valid() && fresh(Repr)
      ensures head != null && size == 0 && Contents() == []
    {
      var h := new Node<E>.Sentinel();
      var t := new Node<E>.Sentinel();
      head := h;
      tail := t;
      size := 0;
      new;
      h.next := t;
      t.prev := h;
      spine := [h, t];
      elems := [];
      Repr := {this, h, t};
    }

    /** add(work): a new node just before the tail. */
    method Add(work: E)
      requires Valid()
      modifies Repr
      ensures Valid() && fresh(Repr - old(Repr))
      ensures head == old(head) && size == old(size) + 1
      ensures elems == old(elems) + [work]
      ensures Contents() == (if head == null then [] else old(Contents()) + [work])
    {
      var temp := new Node(work);
      ghost var n := |spine|;
      assert tail.prev == spine[n - 2] by { assert spine[n - 1].prev == spine[n - 2]; }
      if tail.prev != head {
        var temp2 := tail.prev;
        LinkBeforeTail(temp2, temp);
      } else {
        LinkBeforeTail(head, temp);
      }
      size := size + 1;
    }

    /** The four link updates of add(): temp goes between p, the node before
        the tail, and the tail. */
    method LinkBeforeTail(p: Node<E>, temp: Node<E>)
      requires Valid() && p == spine[|spine| - 2] && temp !in Repr
      modifies this, p, temp, tail
      ensures Linked() && this in Repr && forall k :: 0 <= k < |spine| ==> spine[k] in Repr
      ensures head == old(head) && size == old(size) && tail == old(tail)
      ensures spine == old(spine)[..|old(spine)| - 1] + [temp, tail]
      ensures elems == old(elems) + [old(temp.data)] && Repr == old(Repr) + {temp}
    {
      p.next := temp;
      temp.next := tail;
      temp.prev := p;
      tail.prev := temp;
      spine := spine[..|spine| - 1] + [temp, tail];
      elems := elems + [temp.data];
      Repr := Repr + {temp};
    }

    /** peek(): the first element, or NoSuchElementException when the queue
        is empty or cleared. */
    method Peek() returns (r: Result<E>)
      requires Valid()
      ensures Contents() == [] ==> r == Fail(NoSuchElement)
      ensures Contents() != [] ==> r == Ok(Contents()[0])
    {
      if head != null {
        assert head.next == spine[1];
      }
      if head != null && head.next != tail {
        assert spine[1] != spine[|spine| - 1];
        r := Ok(head.next.data);
      } else {
        r := Fail(NoSuchElement);
      }
    }

    /** next(): unlinks the first data node.  After clear() the null head
        is dereferenced (NullPointerException). */
    method Next() returns (r: Result<E>)
      requires Valid()
      modifies Repr
      ensures Valid() && Repr == old(Repr) && head == old(head)
      ensures head == null ==> r == Fail(NullPointer) && elems == old(elems) && size == old(size)
      ensures head != null && old(Contents()) == [] ==>
        r == Fail(NoSuchElement) && elems == old(elems) && size == old(size)
      ensures head != null && old(Contents()) != [] ==>
        r == Ok(old(Contents())[0]) && Contents() == old(Contents())[1..] && size == old(size) - 1
    {
      if head == null {
        return Fail(NullPointer);
      }
      assert head.next == spine[1];
      if head.next != tail {
        assert spine[1] != spine[|spine| - 1];
        assert spine[1].next == spine[2];
        var temp2 := head.next;
        var temp := temp2.data;
        head.next := temp2.next;
        temp2.next.prev := head;
        size := size - 1;
        spine := [spine[0]] + spine[2..];
        elems := elems[1..];
        r := Ok(temp);
      } else {
        r := Fail(NoSuchElement);
      }
    }

    method Size() returns (n: int)
      requires Valid()
      ensures n == size
      ensures head != null ==> n == |Contents()|
    {
      n := size;
    }

    /** clear(): head becomes null and size 0; the nodes are left as they are. */
    method Clear()
      requires Valid()
      modifies this
      ensures Valid() && Repr == old(Repr)
      ensures head == null && size == 0 && Contents() == [] && elems == old(elems)
    {
      head := null;
      size := 0;
    }

    /** hasWork(): true as long as clear() has not been called, even when
        the queue is empty. */
    method HasWork() returns (work: bool)
      requires Valid()
      ensures work <==> head != null
    {
      work := head != null;
    }
  }
}
