/** CircularArrayFIFOQueue: a fixed-capacity FIFO work list kept in a ring
    buffer.  The array arr holds the elements; front (val_of_arr in the
    Java class) is the slot of the oldest element and size (size_of_arr)
    is the number of elements. */
module CircularQueue {
  import opened JavaErrors

  /** x % n for 0 <= x < 2n, the only case the queue ever computes. */
  function Wrap(x: int, n: int): int
    requires 0 <= x < 2 * n
  {
    if x < n then x else x - n
  }

  lemma ModIsWrap(x: int, n: int)
    requires 0 <= x < 2 * n
    ensures x % n == Wrap(x, n)
  {
    if x >= n {
      assert x == n * 1 + (x - n);
    }
  }

  ghost predicate WindowOk(n: int, f: int, len: int)
  {
    0 <= len <= n && (n == 0 ==> f == 0) && (n > 0 ==> 0 <= f < n)
  }

  /** The len elements of the ring a that start at slot f. */
  ghost function Window<E>(a: seq<E>, f: int, len: int): (w: seq<E>)
    requires WindowOk(|a|, f, len)
    ensures |w| == len
  {
    if f + len <= |a| then a[f..f + len] else a[f..] + a[..f + len - |a|]
  }

  lemma WindowAt<E>(a: seq<E>, f: int, len: int, i: int)
    requires WindowOk(|a|, f, len) && 0 <= i < len
    ensures Window(a, f, len)[i] == a[Wrap(f + i, |a|)]
  {
  }

  lemma WindowAppend<E>(a: seq<E>, f: int, len: int, x: E)
    requires WindowOk(|a|, f, len) && len < |a|
    ensures Window(a[Wrap(f + len, |a|) := x], f, len + 1) == Window(a, f, len) + [x]
  {
    var b := a[Wrap(f + len, |a|) := x];
    forall i | 0 <= i < len + 1
      ensures Window(b, f, len + 1)[i] == (Window(a, f, len) + [x])[i]
    {
      WindowAt(b, f, len + 1, i);
      if i < len {
        WindowAt(a, f, len, i);
      }
    }
  }

  lemma WindowUpdate<E>(a: seq<E>, f: int, len: int, i: int, x: E)
    requires WindowOk(|a|, f, len) && 0 <= i < len
    ensures Window(a[Wrap(f + i, |a|) := x], f, len) == Window(a, f, len)[i := x]
  {
    var b := a[Wrap(f + i, |a|) := x];
    forall k | 0 <= k < len
      ensures Window(b, f, len)[k] == Window(a, f, len)[i := x][k]
    {
      WindowAt(b, f, len, k);
      WindowAt(a, f, len, k);
    }
  }

  lemma WindowAdvance<E>(a: seq<E>, f: int, len: int)
    requires WindowOk(|a|, f, len) && len > 0
    ensures WindowOk(|a|, Wrap(f + 1, |a|), len - 1)
    ensures Window(a, Wrap(f + 1, |a|), len - 1) == Window(a, f, len)[1..]
  {
    var g := Wrap(f + 1, |a|);
    forall k | 0 <= k < len - 1
      ensures Window(a, g, len - 1)[k] == Window(a, f, len)[1..][k]
    {
      WindowAt(a, g, len - 1, k);
      WindowAt(a, f, len, k + 1);
    }
  }

  class CircularArrayFIFOQueue<E(0)> {
    var arr: array<E>
    var size: int
    var front: int
    /** The capacity given to the constructor (FixedSizeFIFOWorkList.capacity()). */
    const capacity: nat
    ghost var Repr: set<object>

    ghost predicate Valid()
      reads this, Repr
      ensures Valid() ==> this in Repr
    {
      this in Repr && arr in Repr &&
      arr.Length == capacity &&
      0 <= size <= capacity &&
      WindowOk(capacity, front, size)
    }

    /** The elements from the oldest to the newest. */
    ghost function Contents(): seq<E>
      reads this, arr
      requires WindowOk(arr.Length, front, size)
    {
      Window(arr[..], front, size)
    }

    constructor (capacity: nat)
      ensures Valid() && fresh(Repr)
      ensures this.capacity == capacity && Contents() == []
    {
      this.capacity := capacity;
      arr := new E[capacity];
      size := 0;
      front := 0;
      Repr := {this, arr};
    }

    /** FixedSizeFIFOWorkList.isFull(). */
    method IsFull() returns (full: bool)
      requires Valid()
      ensures full <==> |Contents()| == capacity
    {
      full := size == capacity;
    }

    /** WorkList.hasWork(): some element is waiting. */
    method HasWork() returns (work: bool)
      requires Valid()
      ensures work <==> Contents() != []
    {
      work := size > 0;
    }

    method Size() returns (n: int)
      requires Valid()
      ensures n == |Contents()|
    {
      n := size;
    }

    /** add(work): rejected on a full queue, otherwise appended at the back,
        in slot (front + size) % arr.length. */
    method Add(work: E) returns (r: Result<()>)
      requires Valid()
      modifies Repr
      ensures Valid() && Repr == old(Repr) && arr == old(arr)
      ensures old(size) == capacity ==> r == Fail(IllegalState) && Contents() == old(Contents())
      ensures old(size) < capacity ==>
        r == Ok(()) && Contents() == old(Contents()) + [work] &&
        arr[(front + old(size)) % capacity] == work
    {
      if size == capacity {
        return Fail(IllegalState);
      }
      var slot := (front + size) % arr.Length;
      ModIsWrap(front + size, arr.Length);
      WindowAppend(arr[..], front, size, work);
      arr[slot] := work;
      size := size + 1;
      r := Ok(());
    }

    /** peek(i): the i-th element from the front; an empty queue fails
        before the index is checked. */
    method PeekAt(i: int) returns (r: Result<E>)
      requires Valid()
      ensures size <= 0 ==> r == Fail(NoSuchElement)
      ensures size > 0 && !(0 <= i < size) ==> r == Fail(IndexOutOfBounds)
      ensures size > 0 && 0 <= i < size ==> r == Ok(Contents()[i])
    {
      if size <= 0 {
        r := Fail(NoSuchElement);
      } else if i < size && i >= 0 {
        ModIsWrap(front + i, arr.Length);
        WindowAt(arr[..], front, size, i);
        r := Ok(arr[(front + i) % arr.Length]);
      } else {
        r := Fail(IndexOutOfBounds);
      }
    }

    /** peek() is peek(0): the oldest element. */
    method Peek() returns (r: Result<E>)
      requires Valid()
      ensures Contents() == [] ==> r == Fail(NoSuchElement)
      ensures Contents() != [] ==> r == Ok(Contents()[0])
    {
      r := PeekAt(0);
    }

    /** next(): removes and returns the oldest element. */
    method Next() returns (r: Result<E>)
      requires Valid()
      modifies Repr
      ensures Valid() && Repr == old(Repr)
      ensures old(size) == 0 ==> r == Fail(NoSuchElement) && unchanged(this)
      ensures old(size) > 0 ==> r == Ok(old(Contents())[0]) && Contents() == old(Contents())[1..]
    {
      if size > 0 {
        WindowAt(arr[..], front, size, 0);
        WindowAdvance(arr[..], front, size);
        var tmp := arr[front];
        ModIsWrap(front + 1, arr.Length);
        front := (front + 1) % arr.Length;
        size := size - 1;
        r := Ok(tmp);
      } else {
        r := Fail(NoSuchElement);
      }
    }

    /** update(i, value): the same errors as peek(i); otherwise the i-th
        element is replaced, the others are kept, and value is returned. */
    method Update(i: int, value: E) returns (r: Result<E>)
      requires Valid()
      modifies arr
      ensures Valid()
      ensures !(0 <= i < size) ==> unchanged(arr)
      ensures size <= 0 ==> r == Fail(NoSuchElement)
      ensures size > 0 && !(0 <= i < size) ==> r == Fail(IndexOutOfBounds)
      ensures size > 0 && 0 <= i < size ==> r == Ok(value) && Contents() == old(Contents())[i := value]
    {
      if size <= 0 {
        r := Fail(NoSuchElement);
      } else if i < size && i >= 0 {
        ModIsWrap(front + i, arr.Length);
        WindowUpdate(arr[..], front, size, i, value);
        arr[(front + i) % arr.Length] := value;
        r := Ok(value);
      } else {
        r := Fail(IndexOutOfBounds);
      }
    }

    /** clear(): a fresh array of the same capacity, empty, front at 0. */
    method Clear()
      requires Valid()
      modifies this
      ensures Valid() && fresh(arr) && Repr == {this, arr}
      ensures Contents() == [] && size == 0 && front == 0
    {
      arr := new E[capacity];
      size := 0;
      front := 0;
      Repr := {this, arr};
    }
  }
}
