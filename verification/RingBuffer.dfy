/** The double-ended ring buffer of src/deque.c.  Every server and the planner are built on it. */
module RingBuffer {

  const BUF_SIZE := 1025

  function Pow2(e: nat): nat {
    if e == 0 then 1 else 2 * Pow2(e - 1)
  }

  /** Cell of the buffer that holds the k-th element counted from front. */
  function Slot(front: nat, k: int, max: nat): (i: nat)
    requires 0 < max && 0 <= front + k
    ensures i < max
  {
    (front + k) % max
  }

  /** Two different offsets below max never share a cell. */
  lemma SlotsDiffer(front: nat, j: nat, k: nat, max: nat)
    requires j < k < max && front < max
    ensures Slot(front, j, max) != Slot(front, k, max)
  {
    Wrap(front + j, max);
    Wrap(front + k, max);
  }

  /** For sums below twice the size, the remainder is at most one subtraction. */
  lemma Wrap(x: nat, max: nat)
    requires 0 < max && x < 2 * max
    ensures x % max == if x < max then x else x - max
  {
    if max <= x {
      assert x == max + (x - max);
    }
  }

  class Deque {
    var size: nat
    var maxSize: nat
    var front: nat
    var back: nat
    const buf: array<int>

    ghost predicate Valid()
      reads this, buf
    {
      buf.Length == BUF_SIZE && 1 <= maxSize <= 1024 && size <= maxSize &&
      front < maxSize && back == Slot(front, size, maxSize)
    }

    /** The elements from front to back. */
    ghost function Contents(): (s: seq<int>)
      requires Valid()
      reads this, buf
      ensures |s| == size
    {
      seq(size, k requires 0 <= k < size reads this, buf requires Valid() => buf[Slot(front, k, maxSize)])
    }

    ghost const Repr: set<object> := {this, buf}

    constructor ()
      ensures Valid() && Contents() == [] && maxSize == 1
      ensures fresh(buf)
    {
      size, maxSize, front, back := 0, 1, 0, 0;
      buf := new int[BUF_SIZE](_ => 0);
    }

    /** deque_init: the size is given as an exponent; the status is -1 when it exceeds the buffer. */
    method Init(e: nat) returns (status: int)
      requires Valid()
      modifies this, buf
      ensures Valid()
      ensures status == if e > 10 then -1 else 0
      ensures e > 10 ==> Contents() == old(Contents()) && maxSize == old(maxSize)
      ensures e <= 10 ==> Contents() == [] && maxSize == Pow2(e)
    {
      if e > 10 {
        return -1;
      }
      Pow2Bound(e, 10);
      Clear(Pow2(e));
      return 0;
    }

    predicate Empty()
      reads this
    {
      size == 0
    }

    predicate Full()
      reads this
    {
      size == maxSize
    }

    /** Appends, unless the buffer is full: then the element is dropped. */
    method PushBack(x: int)
      requires Valid()
      modifies this, buf
      ensures Valid() && maxSize == old(maxSize)
      ensures Contents() == if old(Full()) then old(Contents()) else old(Contents()) + [x]
    {
      if size == maxSize {
        return;
      }
      forall k: nat | k < size ensures Slot(front, k, maxSize) != back { SlotsDiffer(front, k, size, maxSize); }
      buf[back] := x;
      SlotNext(front, size, maxSize);
      back := (back + 1) % maxSize;
      size := size + 1;
    }

    method PopBack() returns (x: int)
      requires Valid()
      modifies this
      ensures Valid() && maxSize == old(maxSize)
      ensures old(Empty()) ==> x == -1 && Contents() == []
      ensures !old(Empty()) ==> old(Contents()) == Contents() + [x]
    {
      if size == 0 {
        return -1;
      }
      SlotPrevious(front, size, maxSize);
      x := Back();
      back := (back + maxSize - 1) % maxSize;
      size := size - 1;
    }

    /** Last element; of an empty buffer, whatever the cell before back still holds. */
    method Back() returns (x: int)
      requires Valid()
      ensures size > 0 ==> x == Contents()[size - 1]
      ensures x == buf[(back + maxSize - 1) % maxSize]
    {
      if size > 0 { SlotPrevious(front, size, maxSize); }
      x := buf[(back + maxSize - 1) % maxSize];
    }

    /** Prepends, unless the buffer is full: then the element is dropped. */
    method PushFront(x: int)
      requires Valid()
      modifies this, buf
      ensures Valid() && maxSize == old(maxSize)
      ensures Contents() == if old(Full()) then old(Contents()) else [x] + old(Contents())
    {
      if size == maxSize {
        return;
      }
      var newFront := (front + maxSize - 1) % maxSize;
      forall k: nat | k < size ensures Slot(front, k, maxSize) == Slot(newFront, k + 1, maxSize) != newFront {
        SlotShift(front, newFront, k, maxSize);
        SlotsDiffer(newFront, 0, k + 1, maxSize);
        Wrap(newFront, maxSize);
      }
      SlotShift(front, newFront, size, maxSize);
      front := newFront;
      buf[front] := x;
      size := size + 1;
      Wrap(newFront, maxSize);
    }

    method PopFront() returns (x: int)
      requires Valid()
      modifies this
      ensures Valid() && maxSize == old(maxSize)
      ensures old(Empty()) ==> x == -1 && Contents() == [] && front == old(front)
      ensures !old(Empty()) ==> old(Contents()) == [x] + Contents()
    {
      if size == 0 {
        return -1;
      }
      x := Front();
      var newFront := (front + 1) % maxSize;
      forall k: nat | k < size ensures Slot(newFront, k, maxSize) == Slot(front, k + 1, maxSize) {
        SlotShift(newFront, front, k, maxSize) by { Wrap(front + 1, maxSize); Wrap(newFront + maxSize - 1, maxSize); }
      }
      front := newFront;
      size := size - 1;
    }

    /** First element; of an empty buffer, whatever the front cell still holds. */
    method Front() returns (x: int)
      requires Valid()
      ensures size > 0 ==> x == Contents()[0]
      ensures x == buf[front]
    {
      Wrap(front, maxSize);
      x := buf[front];
    }

    /** The element an iterator k steps after the beginning reads. */
    method Get(k: nat) returns (x: int)
      requires Valid() && k < size
      ensures x == Contents()[k]
    {
      x := buf[(front + k) % maxSize];
    }

    /** The part of deque_init that empties the buffer and zeroes its cells. */
    method Clear(max: nat)
      requires buf.Length == BUF_SIZE && 1 <= max <= 1024
      modifies this, buf
      ensures Valid() && Contents() == [] && maxSize == max
    {
      size, front, back := 0, 0, 0;
      maxSize := max;
      Wrap(0, max);
      forall i | 0 <= i < buf.Length { buf[i] := 0; }
    }
  }

  lemma {:induction false} Pow2Bound(e: nat, f: nat)
    requires e <= f
    ensures 1 <= Pow2(e) <= Pow2(f)
    decreases f
  {
    if e < f { Pow2Bound(e, f - 1); } else if e > 0 { Pow2Bound(e - 1, e - 1); }
  }

  lemma SlotNext(front: nat, k: nat, max: nat)
    requires front < max && k < max
    ensures (Slot(front, k, max) + 1) % max == Slot(front, k + 1, max)
  {
    Wrap(front + k, max);
    Wrap(Slot(front, k, max) + 1, max);
    Wrap(front + k + 1, max);
  }

  lemma SlotPrevious(front: nat, k: nat, max: nat)
    requires front < max && 0 < k <= max
    ensures (Slot(front, k, max) + max - 1) % max == Slot(front, k - 1, max)
  {
    Wrap(front + k - 1, max);
    if front + k < 2 * max { Wrap(front + k, max); }
    Wrap(Slot(front, k, max) + max - 1, max);
  }

  lemma SlotShift(front: nat, newFront: nat, k: nat, max: nat)
    requires front < max && k < max && newFront == (front + max - 1) % max
    ensures Slot(front, k, max) == Slot(newFront, k + 1, max)
  {
    Wrap(front + max - 1, max);
    Wrap(front + k, max);
    if newFront + k + 1 < 2 * max { Wrap(newFront + k + 1, max); }
  }
}
